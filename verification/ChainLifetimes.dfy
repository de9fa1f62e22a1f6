/** Who keeps a chain and a buffer alive: the reference counts behind evbuffer_add_buffer_reference,
    evbuffer_chain_free and evbuffer_decref_and_unlock_.

    Counting is done with debts: dc and db are the references to chains and to buffers that have been
    given up and are about to be taken off the counts. */
module ChainLifetimes {
  import opened Basics

  /** The parent of a multicast chain: the chain whose storage it shows, and the buffer that chain was in. */
  datatype Origin = Origin(chain: nat, source: nat)

  datatype Node = Node(refcnt: nat, origin: Option<Origin>, len: nat)

  /** held: the user has not called evbuffer_free yet. */
  datatype Buf = Buf(refcnt: nat, list: seq<nat>, held: bool)

  type Chains = map<nat, Node>
  type Bufs = map<nat, Buf>

  // ----- who refers to what

  /** The multicast chains that show the storage of chain c. */
  ghost function Shows(chains: Chains, c: nat): set<nat> {
    set t | t in chains && chains[t].origin.Some? && chains[t].origin.value.chain == c
  }

  /** The multicast chains whose parent is in buffer b. */
  ghost function Uses(chains: Chains, b: nat): set<nat> {
    set t | t in chains && chains[t].origin.Some? && chains[t].origin.value.source == b
  }

  /** The buffers that have chain c in their list. */
  ghost function Owners(bufs: Bufs, c: nat): set<nat> {
    set b | b in bufs && c in bufs[b].list
  }

  ghost predicate ChainOk(chains: Chains, bufs: Bufs, dc: multiset<nat>, c: nat) {
    c in chains ==>
      && chains[c].refcnt == |Shows(chains, c)| + |Owners(bufs, c)| + dc[c] && chains[c].refcnt > 0
      && |Owners(bufs, c)| <= 1
      && OriginOk(chains, bufs, chains[c].origin)
  }

  /** A shown chain is alive and has data, and so is the buffer it comes from. */
  ghost predicate OriginOk(chains: Chains, bufs: Bufs, o: Option<Origin>) {
    o.Some? ==> o.value.chain in chains && chains[o.value.chain].len > 0 && o.value.source in bufs
  }

  predicate NoDuplicates(s: seq<nat>) {
    forall i, j | 0 <= i < j < |s| :: s[i] != s[j]
  }

  ghost predicate BufOk(chains: Chains, bufs: Bufs, db: multiset<nat>, b: nat) {
    b in bufs ==>
      && bufs[b].refcnt == |Uses(chains, b)| + (if bufs[b].held then 1 else 0) + db[b] && bufs[b].refcnt > 0
      && NoDuplicates(bufs[b].list) && forall c | c in bufs[b].list :: c in chains
  }

  ghost predicate Counted(chains: Chains, bufs: Bufs, dc: multiset<nat>, db: multiset<nat>) {
    && (forall c :: ChainOk(chains, bufs, dc, c))
    && (forall b :: BufOk(chains, bufs, db, b))
    && (forall c | c in dc :: c in chains) && (forall b | b in db :: b in bufs)
  }

  function MultisetOf(o: Option<Origin>): multiset<nat> {
    if o.Some? then multiset{o.value.chain} else multiset{}
  }

  function SourceOf(o: Option<Origin>): multiset<nat> {
    if o.Some? then multiset{o.value.source} else multiset{}
  }

  // ----- single steps on the counts

  lemma OneLess(s: set<nat>, x: nat)
    ensures |s - {x}| == |s| - if x in s then 1 else 0
  {
    if x !in s { assert s - {x} == s; }
  }

  lemma OneMore(s: set<nat>, x: nat, more: bool)
    requires x !in s
    ensures |s + (if more then {x} else {})| == |s| + if more then 1 else 0
  {
    assert !more ==> s + {} == s;
  }

  lemma CountInList(s: seq<nat>, x: nat)
    requires NoDuplicates(s)
    ensures multiset(s)[x] == if x in s then 1 else 0
  {
    if s != [] {
      var t := s[..|s| - 1];
      assert s == t + [s[|s| - 1]];
      CountInList(t, x);
    }
  }

  /** --chain->refcnt, when references stay. */
  lemma ChainDecremented(chains: Chains, bufs: Bufs, dc: multiset<nat>, db: multiset<nat>, c: nat)
    requires Counted(chains, bufs, dc, db) && c in dc && chains[c].refcnt > 1
    ensures Counted(chains[c := chains[c].(refcnt := chains[c].refcnt - 1)], bufs, dc - multiset{c}, db)
  {
    var chains' := chains[c := chains[c].(refcnt := chains[c].refcnt - 1)];
    forall x ensures ChainOk(chains', bufs, dc - multiset{c}, x) {
      assert ChainOk(chains, bufs, dc, x) && Shows(chains', x) == Shows(chains, x);
    }
    forall b ensures BufOk(chains', bufs, db, b) {
      assert BufOk(chains, bufs, db, b) && Uses(chains', b) == Uses(chains, b);
    }
  }

  lemma NobodyLeft(chains: Chains, bufs: Bufs, dc: multiset<nat>, db: multiset<nat>, c: nat)
    requires Counted(chains, bufs, dc, db) && c in dc && chains[c].refcnt == 1
    ensures forall x | x in chains && chains[x].origin.Some? :: chains[x].origin.value.chain != c
    ensures forall b | b in bufs :: c !in bufs[b].list
  {
    assert ChainOk(chains, bufs, dc, c);
    assert Shows(chains, c) == {} && Owners(bufs, c) == {};
    forall x | x in chains && chains[x].origin.Some? ensures chains[x].origin.value.chain != c {
      assert x !in Shows(chains, c);
    }
    forall b | b in bufs ensures c !in bufs[b].list { assert b !in Owners(bufs, c); }
  }

  /** The last reference to chain c is gone, and so is c; what it referred to has one reference less to come. */
  lemma ChainReleased(chains: Chains, bufs: Bufs, dc: multiset<nat>, db: multiset<nat>, c: nat)
    requires Counted(chains, bufs, dc, db) && c in dc && chains[c].refcnt == 1
    ensures var o := chains[c].origin;
      Counted(chains - {c}, bufs, dc - multiset{c} + MultisetOf(o), db + SourceOf(o))
  {
    var chains' := chains - {c};
    var o := chains[c].origin;
    NobodyLeft(chains, bufs, dc, db, c);
    assert ChainOk(chains, bufs, dc, c);
    forall x ensures ChainOk(chains', bufs, dc - multiset{c} + MultisetOf(o), x) {
      assert ChainOk(chains, bufs, dc, x) && Shows(chains', x) == Shows(chains, x) - {c};
      OneLess(Shows(chains, x), c);
    }
    forall b ensures BufOk(chains', bufs, db + SourceOf(o), b) {
      assert BufOk(chains, bufs, db, b) && Uses(chains', b) == Uses(chains, b) - {c};
      OneLess(Uses(chains, b), c);
    }
  }

  /** --buffer->refcnt, when references stay. */
  lemma BufDecremented(chains: Chains, bufs: Bufs, dc: multiset<nat>, db: multiset<nat>, b: nat)
    requires Counted(chains, bufs, dc, db) && b in db && bufs[b].refcnt > 1
    ensures Counted(chains, bufs[b := bufs[b].(refcnt := bufs[b].refcnt - 1)], dc, db - multiset{b})
  {
    var bufs' := bufs[b := bufs[b].(refcnt := bufs[b].refcnt - 1)];
    forall x ensures ChainOk(chains, bufs', dc, x) {
      assert ChainOk(chains, bufs, dc, x) && Owners(bufs', x) == Owners(bufs, x);
    }
    forall x ensures BufOk(chains, bufs', db - multiset{b}, x) { assert BufOk(chains, bufs, db, x); }
  }

  /** The last reference to buffer b is gone, and so is b; its chains have one reference less to come. */
  lemma BufReleased(chains: Chains, bufs: Bufs, dc: multiset<nat>, db: multiset<nat>, b: nat)
    requires Counted(chains, bufs, dc, db) && b in db && bufs[b].refcnt == 1
    ensures Counted(chains, bufs - {b}, dc + multiset(bufs[b].list), db - multiset{b})
  {
    var bufs' := bufs - {b};
    var list := bufs[b].list;
    assert BufOk(chains, bufs, db, b);
    forall x ensures ChainOk(chains, bufs', dc + multiset(list), x) {
      assert ChainOk(chains, bufs, dc, x) && Owners(bufs', x) == Owners(bufs, x) - {b};
      OneLess(Owners(bufs, x), b);
      CountInList(list, x);
      assert Uses(chains, b) == {};
      assert x in Uses(chains, b) <==> x in chains && chains[x].origin.Some? && chains[x].origin.value.source == b;
    }
    forall x ensures BufOk(chains, bufs', db - multiset{b}, x) { assert BufOk(chains, bufs, db, x); }
  }

  lemma NoDuplicatesParts(a: seq<nat>, b: seq<nat>)
    requires NoDuplicates(a + b)
    ensures NoDuplicates(a) && NoDuplicates(b) && forall c | c in a :: c !in b
  {
    var s := a + b;
    assert forall i | 0 <= i < |a| :: a[i] == s[i];
    assert forall i | 0 <= i < |b| :: b[i] == s[|a| + i];
  }

  lemma NoDuplicatesJoined(a: seq<nat>, b: seq<nat>)
    requires NoDuplicates(a) && NoDuplicates(b) && forall c | c in a :: c !in b
    ensures NoDuplicates(a + b)
  {
    var s := a + b;
    forall i, j | 0 <= i < j < |s| ensures s[i] != s[j] {
      if i < |a| {
        assert s[i] == a[i] && a[i] in a;
        assert s[j] == if j < |a| then a[j] else b[j - |a|];
      } else {
        assert s[i] == b[i - |a|] && s[j] == b[j - |a|];
      }
    }
  }

  /** Chains taken off the list of buffer b have one reference less to come. */
  lemma ListCut(chains: Chains, bufs: Bufs, db: multiset<nat>, b: nat, kept: seq<nat>, gone: seq<nat>)
    requires Counted(chains, bufs, multiset{}, db) && b in bufs &&
             (bufs[b].list == kept + gone || bufs[b].list == gone + kept)
    ensures Counted(chains, bufs[b := bufs[b].(list := kept)], multiset(gone), db)
  {
    var bufs' := bufs[b := bufs[b].(list := kept)];
    var list := bufs[b].list;
    assert BufOk(chains, bufs, db, b);
    if list == kept + gone { NoDuplicatesParts(kept, gone); } else { NoDuplicatesParts(gone, kept); }
    forall x ensures ChainOk(chains, bufs', multiset(gone), x) {
      assert ChainOk(chains, bufs, multiset{}, x);
      CountInList(gone, x);
      if x in gone {
        assert Owners(bufs', x) == Owners(bufs, x) - {b};
        OneLess(Owners(bufs, x), b);
      } else {
        assert Owners(bufs', x) == Owners(bufs, x);
      }
    }
    forall x ensures BufOk(chains, bufs', db, x) { assert BufOk(chains, bufs, db, x); }
  }

  /** A new chain c behind the list of buffer b. */
  lemma ChainListed(chains: Chains, bufs: Bufs, b: nat, c: nat, len: nat)
    requires Counted(chains, bufs, multiset{}, multiset{}) && b in bufs && c !in chains
    ensures Counted(chains[c := Node(1, None, len)], bufs[b := bufs[b].(list := bufs[b].list + [c])], multiset{},
                    multiset{})
  {
    var chains', bufs' := chains[c := Node(1, None, len)], bufs[b := bufs[b].(list := bufs[b].list + [c])];
    forall t | t in chains ensures chains[t].origin.Some? ==> chains[t].origin.value.chain != c {
      assert ChainOk(chains, bufs, multiset{}, t);
    }
    forall a | a in bufs ensures c !in bufs[a].list { assert BufOk(chains, bufs, multiset{}, a); }
    forall x ensures ChainOk(chains', bufs', multiset{}, x) {
      assert ChainOk(chains, bufs, multiset{}, x);
      assert Shows(chains', x) == if x == c then {} else Shows(chains, x);
      assert Owners(bufs', x) == if x == c then {b} else Owners(bufs, x);
    }
    forall x ensures BufOk(chains', bufs', multiset{}, x) {
      assert BufOk(chains, bufs, multiset{}, x) && Uses(chains', x) == Uses(chains, x);
    }
  }

  /** Chain c comes to show the storage of another chain, which gets one more reference, and so does its buffer. */
  lemma ChainShows(chains: Chains, bufs: Bufs, c: nat, o: Origin)
    requires Counted(chains, bufs, multiset{}, multiset{}) && c in chains && chains[c].origin.None?
    requires OriginOk(chains, bufs, Some(o)) && o.chain != c
    ensures Counted(Shown(chains, c, o), bufs[o.source := bufs[o.source].(refcnt := bufs[o.source].refcnt + 1)],
                    multiset{}, multiset{})
  {
    var chains', bufs' := Shown(chains, c, o), bufs[o.source := bufs[o.source].(refcnt := bufs[o.source].refcnt + 1)];
    forall x ensures ChainOk(chains', bufs', multiset{}, x) {
      assert ChainOk(chains, bufs, multiset{}, x) && Owners(bufs', x) == Owners(bufs, x);
      ShowsGrown(chains, chains', c, o, x);
    }
    forall x ensures BufOk(chains', bufs', multiset{}, x) {
      assert BufOk(chains, bufs, multiset{}, x);
      UsesGrown(chains, chains', c, o, x);
    }
  }

  lemma ShowsGrown(chains: Chains, chains': Chains, c: nat, o: Origin, x: nat)
    requires c in chains && chains[c].origin.None? && chains'.Keys == chains.Keys
    requires forall t | t in chains :: chains'[t].origin == if t == c then Some(o) else chains[t].origin
    ensures |Shows(chains', x)| == |Shows(chains, x)| + if o.chain == x then 1 else 0
  {
    OneMore(Shows(chains, x), c, o.chain == x);
    assert Shows(chains', x) == Shows(chains, x) + (if o.chain == x then {c} else {});
  }

  lemma UsesGrown(chains: Chains, chains': Chains, c: nat, o: Origin, x: nat)
    requires c in chains && chains[c].origin.None? && chains'.Keys == chains.Keys
    requires forall t | t in chains :: chains'[t].origin == if t == c then Some(o) else chains[t].origin
    ensures |Uses(chains', x)| == |Uses(chains, x)| + if o.source == x then 1 else 0
  {
    OneMore(Uses(chains, x), c, o.source == x);
    assert Uses(chains', x) == Uses(chains, x) + (if o.source == x then {c} else {});
  }

  ghost function Shown(chains: Chains, c: nat, o: Origin): Chains
    requires c in chains && o.chain in chains && o.chain != c
  {
    chains[c := chains[c].(origin := Some(o))][o.chain := chains[o.chain].(refcnt := chains[o.chain].refcnt + 1)]
  }

  /** Chains and buffers only go away; those that stay keep their list, their data and what they show. */
  ghost predicate Fewer(chains: Chains, bufs: Bufs, chains': Chains, bufs': Bufs) {
    && chains'.Keys <= chains.Keys && bufs'.Keys <= bufs.Keys
    && (forall c | c in chains' :: chains'[c] == chains[c].(refcnt := chains'[c].refcnt))
    && (forall b | b in bufs' :: bufs'[b] == bufs[b].(refcnt := bufs'[b].refcnt))
    && (forall b | b in bufs && bufs[b].held :: b in bufs')
  }

  lemma FewerIsSmaller(chains: Chains, bufs: Bufs, chains': Chains, bufs': Bufs)
    requires Fewer(chains, bufs, chains', bufs')
    ensures |chains'| + |bufs'| <= |chains| + |bufs|
  {
    SubsetSize(chains'.Keys, chains.Keys);
    SubsetSize(bufs'.Keys, bufs.Keys);
  }

  lemma FewerWithout(chains: Chains, bufs: Bufs, b: nat)
    requires b in bufs && !bufs[b].held
    ensures Fewer(chains, bufs, chains, bufs - {b}) && |bufs - {b}| < |bufs|
  {
    assert bufs.Keys == (bufs - {b}).Keys + {b};
  }

  lemma FewerStill(chains: Chains, bufs: Bufs, bufs1: Bufs, chains': Chains, bufs': Bufs)
    requires Fewer(chains, bufs, chains, bufs1) && Fewer(chains, bufs1, chains', bufs')
    ensures Fewer(chains, bufs, chains', bufs')
  {}

  /** The first n chains of a list stay when the empty ones at the end go. */
  ghost predicate Trimmed(chains: Chains, list: seq<nat>, n: nat) {
    && n <= |list|
    && (n > 0 ==> list[n - 1] in chains && chains[list[n - 1]].len > 0)
    && (forall i | n <= i < |list| :: list[i] in chains && chains[list[i]].len == 0)
  }

  /** The chains that stay keep their data and what they show. */
  ghost predicate Lasting(chains: Chains, chains': Chains) {
    forall c | c in chains && c in chains' :: chains'[c].len == chains[c].len && chains'[c].origin == chains[c].origin
  }

  /** The chains of a list that have data. */
  function Solid(chains: Chains, list: seq<nat>, n: nat): seq<nat>
    requires n <= |list| && forall c | c in list :: c in chains
  {
    if n == 0 then []
    else Solid(chains, list, n - 1) + if chains[list[n - 1]].len > 0 then [list[n - 1]] else []
  }

  lemma SolidIn(chains: Chains, list: seq<nat>, n: nat)
    requires n <= |list| && forall c | c in list :: c in chains
    ensures forall c | c in Solid(chains, list, n) :: c in list
  {
  }

  lemma SolidNone(chains: Chains, list: seq<nat>)
    requires forall c | c in list :: c in chains
    ensures Solid(chains, list, 0) == []
  {
  }

  lemma SolidNext(chains: Chains, list: seq<nat>, n: nat)
    requires n < |list| && forall c | c in list :: c in chains
    ensures Solid(chains, list, n + 1) ==
            if chains[list[n]].len > 0 then Solid(chains, list, n) + [list[n]] else Solid(chains, list, n)
  {
  }

  lemma SolidSome(chains: Chains, list: seq<nat>, n: nat)
    requires n <= |list| && forall c | c in list :: c in chains
    ensures (exists i | 0 <= i < n :: chains[list[i]].len > 0) ==> Solid(chains, list, n) != []
  {
  }

  /** Each of the new chains shows the chain of src that is in the same place of the other list. */
  ghost predicate Showing(chains: Chains, news: seq<nat>, olds: seq<nat>, src: nat) {
    |news| == |olds| && forall i | 0 <= i < |news| :: ShowsOne(chains, news[i], olds[i], src)
  }

  ghost predicate ShowsOne(chains: Chains, t: nat, c: nat, src: nat) {
    t in chains && c in chains && chains[t].origin == Some(Origin(c, src)) && chains[t].len == chains[c].len > 0
  }

  lemma ShowingNone(chains: Chains, src: nat)
    ensures Showing(chains, [], [], src)
  {
  }

  lemma ShowingSome(chains: Chains, news: seq<nat>, olds: seq<nat>, src: nat)
    requires Showing(chains, news, olds, src) && olds != []
    ensures news != []
  {
  }

  lemma StillShowing(before: Chains, after: Chains, bufs: Bufs, dst: nat, src: nat, news: seq<nat>,
                     olds: seq<nat>, all: seq<nat>, c: nat, p: nat)
    requires Counted(after, bufs, multiset{}, multiset{}) && dst in bufs && src in bufs && Lasting(before, after)
    requires Showing(before, news, olds, src) && ShowsOne(after, c, p, src) && all == news + [c]
    requires (forall x | x in olds :: x in bufs[src].list) && (forall x | x in news :: x in bufs[dst].list)
    ensures Showing(after, all, olds + [p], src)
  {
    assert BufOk(after, bufs, multiset{}, src) && BufOk(after, bufs, multiset{}, dst);
    forall i | 0 <= i < |all| ensures ShowsOne(after, all[i], (olds + [p])[i], src) {
      if i < |news| {
        assert ShowsOne(before, news[i], olds[i], src);
        assert news[i] in news && olds[i] in olds;
      }
    }
  }

  class World {
    var chains: Chains
    var bufs: Bufs
    var nextId: nat

    ghost predicate Valid()
      reads this
    {
      Counted(chains, bufs, multiset{}, multiset{}) && (forall c | c in chains :: c < nextId) &&
      (forall b | b in bufs :: b < nextId)
    }

    constructor ()
      ensures Valid() && chains == map[] && bufs == map[]
    {
      chains, bufs, nextId := map[], map[], 0;
    }

    /** evbuffer_chain_free */
    method ChainFree(c: nat, ghost dc: multiset<nat>, ghost db: multiset<nat>)
      requires Counted(chains, bufs, dc, db) && c in dc
      modifies `chains, `bufs
      ensures Counted(chains, bufs, dc - multiset{c}, db)
      ensures Fewer(old(chains), old(bufs), chains, bufs)
      decreases |chains| + |bufs|, 0
    {
      assert ChainOk(chains, bufs, dc, c);
      var node := chains[c];
      if node.refcnt > 1 {
        ChainDecremented(chains, bufs, dc, db, c);
        chains := chains[c := node.(refcnt := node.refcnt - 1)];
        return;
      }
      ChainReleased(chains, bufs, dc, db, c);
      chains := chains - {c};
      ghost var rest := dc - multiset{c};
      if node.origin.Some? {
        FewerIsSmaller(old(chains) - {c}, old(bufs), chains, bufs);
        Forget(node.origin.value, rest, db);
      } else {
        assert rest + multiset{} == rest && db + multiset{} == db;
      }
    }

    /** What a multicast chain does when it goes: it gives up its parent and the buffer of the parent. */
    method Forget(o: Origin, ghost dc: multiset<nat>, ghost db: multiset<nat>)
      requires Counted(chains, bufs, dc + multiset{o.chain}, db + multiset{o.source})
      modifies `chains, `bufs
      ensures Counted(chains, bufs, dc, db)
      ensures Fewer(old(chains), old(bufs), chains, bufs)
      decreases |chains| + |bufs|, 2
    {
      assert dc + multiset{o.chain} - multiset{o.chain} == dc && db + multiset{o.source} - multiset{o.source} == db;
      ChainFree(o.chain, dc + multiset{o.chain}, db + multiset{o.source});
      FewerIsSmaller(old(chains), old(bufs), chains, bufs);
      BufDecref(o.source, dc, db + multiset{o.source});
    }

    /** evbuffer_decref_and_unlock_ */
    method BufDecref(b: nat, ghost dc: multiset<nat>, ghost db: multiset<nat>)
      requires Counted(chains, bufs, dc, db) && b in db
      modifies `chains, `bufs
      ensures Counted(chains, bufs, dc, db - multiset{b})
      ensures Fewer(old(chains), old(bufs), chains, bufs)
      decreases |chains| + |bufs|, 1
    {
      assert BufOk(chains, bufs, db, b);
      var buf := bufs[b];
      if buf.refcnt > 1 {
        BufDecremented(chains, bufs, dc, db, b);
        bufs := bufs[b := buf.(refcnt := buf.refcnt - 1)];
        return;
      }
      BufReleased(chains, bufs, dc, db, b);
      ghost var bufs0 := bufs;
      bufs := bufs - {b};
      FewerWithout(chains, bufs0, b);
      ghost var chains1, bufs1 := chains, bufs;
      FreeList(buf.list, dc, db - multiset{b});
      FewerStill(chains1, bufs0, bufs1, chains, bufs);
    }

    /** evbuffer_free_all_chains, for a list that is no longer anyone's. */
    method FreeList(list: seq<nat>, ghost dc: multiset<nat>, ghost db: multiset<nat>)
      requires Counted(chains, bufs, dc + multiset(list), db)
      modifies `chains, `bufs
      ensures Counted(chains, bufs, dc, db)
      ensures list == [] ==> chains == old(chains) && bufs == old(bufs)
      ensures Fewer(old(chains), old(bufs), chains, bufs)
      decreases |chains| + |bufs|, 2
    {
      ghost var chains0, bufs0 := chains, bufs;
      assert list[0..] == list;
      for i := 0 to |list|
        invariant Counted(chains, bufs, dc + multiset(list[i..]), db)
        invariant Fewer(chains0, bufs0, chains, bufs)
        invariant i == 0 ==> chains == chains0 && bufs == bufs0
      {
        FewerIsSmaller(chains0, bufs0, chains, bufs);
        NextDebt(dc, list, i);
        ChainFree(list[i], dc + multiset(list[i..]), db);
      }
      assert dc + multiset(list[|list|..]) == dc;
    }

    // ----- what the users of the buffers do

    /** evbuffer_new */
    method NewBuf() returns (b: nat)
      requires Valid()
      modifies this
      ensures Valid() && b !in old(bufs) && bufs == old(bufs)[b := Buf(1, [], true)] && chains == old(chains)
    {
      b := nextId;
      BufAdded(chains, bufs, b);
      bufs := bufs[b := Buf(1, [], true)];
      nextId := nextId + 1;
    }

    /** evbuffer_free */
    method FreeBuf(b: nat)
      requires Valid() && b in bufs && bufs[b].held
      modifies `chains, `bufs
      ensures Valid() && Fewer(old(chains), old(bufs)[b := old(bufs)[b].(held := false)], chains, bufs)
    {
      BufGivenUp(chains, bufs, b);
      bufs := bufs[b := bufs[b].(held := false)];
      BufDecref(b, multiset{}, multiset{b});
      assert multiset{b} - multiset{b} == multiset{};
    }

    /** evbuffer_drain, for the first n chains of a buffer. */
    method DrainChains(b: nat, n: nat)
      requires Valid() && b in bufs && bufs[b].held && n <= |bufs[b].list|
      modifies `chains, `bufs
      ensures Valid() && b in bufs && bufs[b].list == old(bufs[b].list)[n..]
      ensures Fewer(old(chains), old(bufs)[b := old(bufs)[b].(list := old(bufs)[b].list[n..])], chains, bufs)
    {
      var gone, kept := bufs[b].list[..n], bufs[b].list[n..];
      assert bufs[b].list == gone + kept;
      ListCut(chains, bufs, multiset{}, b, kept, gone);
      bufs := bufs[b := bufs[b].(list := kept)];
      assert multiset{} + multiset(gone) == multiset(gone);
      FreeList(gone, multiset{}, multiset{});
    }

    /** evbuffer_drain, for some of the data of the first chain of a buffer. */
    method TrimFirst(b: nat, n: nat)
      requires Valid() && b in bufs && bufs[b].list != [] && bufs[b].list[0] in chains &&
               n < chains[bufs[b].list[0]].len
      modifies `chains
      ensures Valid()
      ensures var c := bufs[b].list[0]; chains == old(chains)[c := old(chains)[c].(len := old(chains)[c].len - n)]
    {
      var c := bufs[b].list[0];
      ChainTrimmed(chains, bufs, c, chains[c].len - n);
      chains := chains[c := chains[c].(len := chains[c].len - n)];
    }

    /** How many chains stay when the empty ones at the end go. */
    method Kept(b: nat) returns (n: nat)
      requires Valid() && b in bufs
      ensures n <= |bufs[b].list| && (n > 0 ==> bufs[b].list[n - 1] in chains && chains[bufs[b].list[n - 1]].len > 0)
      ensures forall i | n <= i < |bufs[b].list| :: bufs[b].list[i] in chains && chains[bufs[b].list[i]].len == 0
    {
      assert BufOk(chains, bufs, multiset{}, b);
      n := |bufs[b].list|;
      while n > 0 && chains[bufs[b].list[n - 1]].len == 0
        invariant n <= |bufs[b].list|
        invariant forall i | n <= i < |bufs[b].list| :: bufs[b].list[i] in chains && chains[bufs[b].list[i]].len == 0
      {
        n := n - 1;
      }
    }

    /** evbuffer_free_trailing_empty_chains */
    method DropEmpty(b: nat) returns (ghost n: nat)
      requires Valid() && b in bufs && bufs[b].held
      modifies `chains, `bufs
      ensures Valid() && n <= |old(bufs[b].list)| && b in bufs && bufs[b].held && bufs[b].list == old(bufs[b].list)[..n]
      ensures Fewer(old(chains), old(bufs)[b := old(bufs)[b].(list := old(bufs[b].list)[..n])], chains, bufs)
      ensures Trimmed(old(chains), old(bufs[b].list), n)
      ensures old(bufs[b].list) == [] ==> chains == old(chains) && bufs == old(bufs)
    {
      var k := Kept(b);
      n := k;
      var list := bufs[b].list;
      assert list == list[..k] + list[k..];
      assert list == [] ==> bufs == bufs[b := bufs[b].(list := list[..k])];
      ListCut(chains, bufs, multiset{}, b, list[..k], list[k..]);
      bufs := bufs[b := bufs[b].(list := list[..k])];
      assert multiset{} + multiset(list[k..]) == multiset(list[k..]);
      FreeList(list[k..], multiset{}, multiset{});
    }

    /** A new chain with len bytes of data behind the others. */
    method Append(b: nat, len: nat) returns (c: nat)
      requires Valid() && b in bufs
      modifies this
      ensures Valid() && c !in old(chains) && chains == old(chains)[c := Node(1, None, len)]
      ensures c == old(nextId) && nextId == c + 1
      ensures bufs == old(bufs)[b := old(bufs[b]).(list := old(bufs[b].list) + [c])]
    {
      c := nextId;
      ChainListed(chains, bufs, b, c, len);
      chains := chains[c := Node(1, None, len)];
      bufs := bufs[b := bufs[b].(list := bufs[b].list + [c])];
      nextId := nextId + 1;
    }

    /** evbuffer_chain_insert, of a new chain with len bytes of data. */
    method Insert(b: nat, len: nat) returns (c: nat)
      requires Valid() && b in bufs && bufs[b].held
      modifies this
      ensures Valid() && b in bufs && c in chains && chains[c] == Node(1, None, len) && c !in old(chains)
      ensures old(bufs[b].list) == [] ==>
                chains == old(chains)[c := Node(1, None, len)] && bufs == old(bufs)[b := old(bufs[b]).(list := [c])]
      ensures exists n: nat ::
                Trimmed(old(chains), old(bufs[b].list), n) && bufs[b].list == old(bufs[b].list)[..n] + [c]
    {
      ghost var n := DropEmpty(b);
      c := Append(b, len);
      assert old(bufs[b].list) == [] ==> bufs[b].list == [] + [c] == [c];
    }

    /** One round of APPEND_CHAIN_MULTICAST: a chain in dst that shows chain p of src. */
    method Show(dst: nat, src: nat, p: nat) returns (c: nat, ghost n: nat)
      requires Valid() && dst in bufs && src in bufs && bufs[dst].held && bufs[src].held && dst != src
      requires p in bufs[src].list && p in chains && chains[p].len > 0
      modifies this
      ensures Valid() && dst in bufs && src in bufs && bufs[dst].held && bufs[src].held
      ensures bufs[src].list == old(bufs[src].list) && Lasting(old(chains), chains)
      ensures Trimmed(old(chains), old(bufs[dst].list), n) && bufs[dst].list == old(bufs[dst].list)[..n] + [c]
      ensures ShowsOne(chains, c, p, src) && c == old(nextId) && nextId == c + 1 &&
              chains.Keys <= old(chains).Keys + {c}
    {
      n := DropEmpty(dst);
      assert BufOk(chains, bufs, multiset{}, src);
      c := ShowNew(dst, src, p);
    }

    /** The chain of the last step, once the empty ones are gone. */
    method ShowNew(dst: nat, src: nat, p: nat) returns (c: nat)
      requires Valid() && dst in bufs && src in bufs && dst != src
      requires p in bufs[src].list && p in chains && chains[p].len > 0
      modifies this
      ensures Valid() && bufs.Keys == old(bufs).Keys && forall b | b in bufs :: bufs[b].held == old(bufs)[b].held
      ensures bufs[src].list == old(bufs[src].list) && bufs[dst].list == old(bufs[dst].list) + [c]
      ensures Lasting(old(chains), chains) && chains.Keys == old(chains).Keys + {c}
      ensures ShowsOne(chains, c, p, src) && c == old(nextId) && nextId == c + 1
    {
      c := Append(dst, chains[p].len);
      assert BufOk(chains, bufs, multiset{}, src);
      var o := Origin(p, src);
      ChainShows(chains, bufs, c, o);
      bufs := bufs[src := bufs[src].(refcnt := bufs[src].refcnt + 1)];
      chains := chains[c := chains[c].(origin := Some(o))][p := chains[p].(refcnt := chains[p].refcnt + 1)];
    }

    /** Is there data in the buffer? */
    predicate HasData(b: nat)
      requires b in bufs && forall c | c in bufs[b].list :: c in chains
      reads this
    {
      exists c | c in bufs[b].list :: chains[c].len > 0
    }

    predicate HasMulticast(b: nat)
      requires b in bufs && forall c | c in bufs[b].list :: c in chains
      reads this
    {
      exists c | c in bufs[b].list :: chains[c].origin.Some?
    }

    /** Moves the first n chains of src to the end of dst, after the empty ones there are gone: the relinking
        in evbuffer_add_buffer and evbuffer_remove_buffer. */
    method MoveChains(dst: nat, src: nat, n: nat)
      requires Valid() && dst in bufs && src in bufs && bufs[dst].held && bufs[src].held && dst != src
      requires n <= |bufs[src].list|
      modifies `chains, `bufs
      ensures Valid() && dst in bufs && src in bufs && bufs[src].list == old(bufs[src].list)[n..]
      ensures exists k: nat :: Trimmed(old(chains), old(bufs[dst].list), k) &&
                bufs[dst].list == old(bufs[dst].list)[..k] + old(bufs[src].list)[..n]
    {
      ghost var k := DropEmpty(dst);
      ListMoved(chains, bufs, dst, src, n, false);
      Relink(dst, src, bufs[dst].list + bufs[src].list[..n], bufs[src].list[n..]);
    }

    method Relink(dst: nat, src: nat, d: seq<nat>, s: seq<nat>)
      requires dst in bufs && src in bufs && dst != src
      modifies `bufs
      ensures bufs == old(bufs)[dst := old(bufs)[dst].(list := d)][src := old(bufs)[src].(list := s)]
    {
      bufs := bufs[dst := bufs[dst].(list := d)];
      bufs := bufs[src := bufs[src].(list := s)];
    }

    /** evbuffer_add_buffer; frozen when an end that takes part is. */
    method AddBuffer(dst: nat, src: nat, frozen: bool) returns (ok: bool)
      requires Valid() && dst in bufs && src in bufs && bufs[dst].held && bufs[src].held
      requires forall c | c in bufs[src].list :: c in chains
      modifies `chains, `bufs
      ensures Valid() && dst in bufs && src in bufs && ok == (!old(HasData(src)) || dst == src || !frozen)
      ensures !ok || !old(HasData(src)) || dst == src ==> chains == old(chains) && bufs == old(bufs)
      ensures ok && old(HasData(src)) && dst != src ==>
                bufs[src].list == [] &&
                exists k: nat :: Trimmed(old(chains), old(bufs[dst].list), k) &&
                  bufs[dst].list == old(bufs[dst].list)[..k] + old(bufs[src].list)
    {
      if !HasData(src) || dst == src {
        return true;
      }
      if frozen {
        return false;
      }
      ghost var all := bufs[src].list;
      assert all[..|all|] == all;
      MoveChains(dst, src, |bufs[src].list|);
      ok := true;
    }

    /** evbuffer_prepend_buffer; the chains of dst go when it has no data. */
    method PrependBuffer(dst: nat, src: nat, frozen: bool) returns (ok: bool)
      requires Valid() && dst in bufs && src in bufs && bufs[dst].held && bufs[src].held
      requires (forall c | c in bufs[dst].list :: c in chains) && (forall c | c in bufs[src].list :: c in chains)
      modifies `chains, `bufs
      ensures Valid() && dst in bufs && src in bufs && ok == (!old(HasData(src)) || dst == src || !frozen)
      ensures !ok || !old(HasData(src)) || dst == src ==> chains == old(chains) && bufs == old(bufs)
      ensures ok && old(HasData(src)) && dst != src ==>
                && bufs[src].list == []
                && bufs[dst].list == old(bufs[src].list) + if old(HasData(dst)) then old(bufs[dst].list) else []
    {
      if !HasData(src) || dst == src {
        return true;
      }
      if frozen {
        return false;
      }
      if !HasData(dst) {
        ghost var k := DropEmpty(dst);
      }
      var m := bufs[src].list;
      assert m[..|m|] == m && m[|m|..] == [];
      ListMoved(chains, bufs, dst, src, |m|, true);
      Relink(dst, src, m + bufs[dst].list, []);
      ok := true;
    }

    /** evbuffer_add_buffer_reference. When dst holds chains but no data, those are freed and the list is
        not reset: the first chain that is inserted afterwards frees them again. */
    method AddBufferReference(dst: nat, src: nat, frozen: bool) returns (r: Outcome)
      requires Valid() && dst in bufs && src in bufs && bufs[dst].held && bufs[src].held
      requires (forall c | c in bufs[dst].list :: c in chains) && (forall c | c in bufs[src].list :: c in chains)
      modifies this
      ensures r == if !old(HasData(src)) then Done
                   else if frozen || dst == src || old(HasMulticast(src)) then Refused
                   else if !old(HasData(dst)) && old(bufs[dst].list) != [] then FreedTwice
                   else Done
      ensures r != FreedTwice ==> Valid() && dst in bufs && src in bufs && bufs[src].list == old(bufs[src].list)
      ensures r == Refused || !old(HasData(src)) ==> chains == old(chains) && bufs == old(bufs)
      ensures r == Done && old(HasData(src)) ==>
                exists n: nat, news ::
                  Trimmed(old(chains), old(bufs[dst].list), n) && bufs[dst].list == old(bufs[dst].list)[..n] + news &&
                  Showing(chains, news, Solid(old(chains), old(bufs[src].list), |old(bufs[src].list)|), src)
    {
      if !HasData(src) {
        return Done;
      }
      if frozen || dst == src || HasMulticast(src) {
        return Refused;
      }
      if !HasData(dst) {
        var again := FreeWithoutReset(dst);
        if again {
          return FreedTwice;
        }
      }
      ghost var n, news := ShowAll(dst, src);
      r := Done;
    }

    /** One more chain, behind those that the loop has made so far. */
    method ShowNext(dst: nat, src: nat, p: nat, ghost start: Chains, ghost list: seq<nat>, ghost n: nat,
                    ghost news: seq<nat>, ghost olds: seq<nat>) returns (ghost n': nat, ghost news': seq<nat>)
      requires Valid() && dst in bufs && src in bufs && bufs[dst].held && bufs[src].held && dst != src
      requires p in bufs[src].list && p in chains && chains[p].len > 0
      requires Lasting(start, chains) && (forall x | x in start :: x < nextId) &&
               (forall c | c in olds :: c in bufs[src].list)
      requires n <= |list| && bufs[dst].list == list[..n] + news && Showing(chains, news, olds, src)
      requires if news == [] then chains == start && n == |list| else Trimmed(start, list, n)
      modifies this
      ensures Valid() && dst in bufs && src in bufs && bufs[dst].held && bufs[src].held
      ensures bufs[src].list == old(bufs[src].list) && Lasting(start, chains) && forall x | x in start :: x < nextId
      ensures Trimmed(start, list, n') && bufs[dst].list == list[..n'] + news' && news' != []
      ensures Showing(chains, news', olds + [p], src)
    {
      ghost var before := bufs[dst].list;
      var c;
      ghost var k;
      c, k := Show(dst, src, p);
      if news == [] {
        assert before == list;
        n', news' := k, [c];
      } else {
        assert before[|before| - 1] == news[|news| - 1];
        assert ShowsOne(old(chains), news[|news| - 1], olds[|news| - 1], src);
        assert k == |before|;
        n', news' := n, news + [c];
      }
      forall x | x in news ensures x in bufs[dst].list {
        assert x in before;
      }
      StillShowing(old(chains), chains, bufs, dst, src, news, olds, news', c, p);
    }

    /** The loop of APPEND_CHAIN_MULTICAST. */
    method ShowAll(dst: nat, src: nat) returns (ghost n: nat, ghost news: seq<nat>)
      requires Valid() && dst in bufs && src in bufs && bufs[dst].held && bufs[src].held && dst != src
      requires (forall c | c in bufs[src].list :: c in chains) && HasData(src)
      modifies this
      ensures Valid() && dst in bufs && src in bufs && bufs[src].list == old(bufs[src].list)
      ensures Trimmed(old(chains), old(bufs[dst].list), n) && bufs[dst].list == old(bufs[dst].list)[..n] + news
      ensures Showing(chains, news, Solid(old(chains), old(bufs[src].list), |old(bufs[src].list)|), src)
    {
      hide ChainOk, Showing, Trimmed, Solid;
      SolidNone(old(chains), bufs[src].list);
      ShowingNone(chains, src);
      var list := bufs[src].list;
      n, news := |bufs[dst].list|, [];
      for i := 0 to |list|
        invariant Valid() && dst in bufs && src in bufs && bufs[dst].held && bufs[src].held && bufs[src].list == list
        invariant Lasting(old(chains), chains) && (forall c | c in list :: c in chains) &&
                  forall x | x in old(chains) :: x < nextId
        invariant n <= |old(bufs[dst].list)| && bufs[dst].list == old(bufs[dst].list)[..n] + news
        invariant news == [] ==> chains == old(chains) && n == |old(bufs[dst].list)|
        invariant news != [] ==> Trimmed(old(chains), old(bufs[dst].list), n)
        invariant Showing(chains, news, Solid(old(chains), list, i), src)
      {
        SolidIn(old(chains), list, i);
        SolidNext(old(chains), list, i);
        if chains[list[i]].len > 0 {
          n, news := ShowNext(dst, src, list[i], old(chains), old(bufs[dst].list), n, news,
                              Solid(old(chains), list, i));
          assert BufOk(chains, bufs, multiset{}, src);
        }
      }
      SolidSome(old(chains), list, |list|);
      ShowingSome(chains, news, Solid(old(chains), list, |list|), src);
    }

    /** evbuffer_free_all_chains on a buffer without data: will the next insertion free a chain that is gone? */
    method FreeWithoutReset(b: nat) returns (again: bool)
      requires Valid() && b in bufs && bufs[b].held
      requires (forall c | c in bufs[b].list :: c in chains) && !HasData(b)
      modifies `chains, `bufs
      ensures again == (old(bufs[b].list) != [])
      ensures !again ==> Valid() && chains == old(chains) && bufs == old(bufs)
    {
      var stale := bufs[b].list;
      if stale == [] {
        return false;
      }
      NobodyElse(chains, bufs, b, stale[0]);
      assert stale == [] + stale && multiset{} + multiset(stale) == multiset(stale);
      ListCut(chains, bufs, multiset{}, b, [], stale);
      bufs := bufs[b := bufs[b].(list := [])];
      ghost var chains0, bufs0 := chains, bufs;
      OwnersCut(old(bufs), b, stale[0]);
      FreeList(stale, multiset{}, multiset{});
      Unlisted(chains0, bufs0, chains, bufs, stale[0]);
      again := stale[0] !in chains;
    }
  }

  datatype Outcome = Done | Refused | FreedTwice

  /** An empty chain is referred to only by the list that it is in. */
  lemma NobodyElse(chains: Chains, bufs: Bufs, b: nat, c: nat)
    requires Counted(chains, bufs, multiset{}, multiset{}) && b in bufs && c in bufs[b].list && c in chains &&
             chains[c].len == 0
    ensures Shows(chains, c) == {} && Owners(bufs, c) == {b}
  {
    forall t | t in chains ensures t !in Shows(chains, c) { assert ChainOk(chains, bufs, multiset{}, t); }
    OnlyOwner(chains, bufs, c, b);
  }

  lemma OwnersCut(bufs: Bufs, b: nat, c: nat)
    requires b in bufs
    ensures Owners(bufs[b := bufs[b].(list := [])], c) == Owners(bufs, c) - {b}
  {
    var bufs' := bufs[b := bufs[b].(list := [])];
    assert forall x | x in bufs && x != b :: bufs'[x].list == bufs[x].list;
    assert c !in bufs'[b].list;
  }

  /** A chain that nobody lists or shows does not survive. */
  lemma Unlisted(chains0: Chains, bufs0: Bufs, chains: Chains, bufs: Bufs, c: nat)
    requires Counted(chains, bufs, multiset{}, multiset{}) && Fewer(chains0, bufs0, chains, bufs)
    requires Shows(chains0, c) == {} && Owners(bufs0, c) == {}
    ensures c !in chains
  {
    assert ChainOk(chains, bufs, multiset{}, c);
    assert Shows(chains, c) <= Shows(chains0, c) && Owners(bufs, c) <= Owners(bufs0, c);
  }

  /** A chain is alive exactly as long as a list holds it or a multicast chain shows it. */
  lemma AliveIffReferenced(w: World, c: nat)
    requires w.Valid()
    ensures c in w.chains <==> Owners(w.bufs, c) != {} || Shows(w.chains, c) != {}
  {
    assert ChainOk(w.chains, w.bufs, multiset{}, c);
    forall b | b in Owners(w.bufs, c) ensures c in w.chains { assert BufOk(w.chains, w.bufs, multiset{}, b); }
    forall t | t in Shows(w.chains, c) ensures c in w.chains { assert ChainOk(w.chains, w.bufs, multiset{}, t); }
  }

  /** A buffer is alive exactly as long as its user holds it or a multicast chain shows one of its chains. */
  lemma SourceOutlives(w: World, b: nat)
    requires w.Valid()
    ensures b in w.bufs <==> (b in w.bufs && w.bufs[b].held) || Uses(w.chains, b) != {}
  {
    assert BufOk(w.chains, w.bufs, multiset{}, b);
    forall t | t in Uses(w.chains, b) ensures b in w.bufs { assert ChainOk(w.chains, w.bufs, multiset{}, t); }
  }

  lemma BufAdded(chains: Chains, bufs: Bufs, b: nat)
    requires Counted(chains, bufs, multiset{}, multiset{}) && b !in bufs
    ensures Counted(chains, bufs[b := Buf(1, [], true)], multiset{}, multiset{})
  {
    var bufs' := bufs[b := Buf(1, [], true)];
    forall x ensures ChainOk(chains, bufs', multiset{}, x) {
      assert ChainOk(chains, bufs, multiset{}, x) && Owners(bufs', x) == Owners(bufs, x);
    }
    forall t | t in chains ensures t !in Uses(chains, b) { assert ChainOk(chains, bufs, multiset{}, t); }
    assert Uses(chains, b) == {};
    forall x ensures BufOk(chains, bufs', multiset{}, x) { assert BufOk(chains, bufs, multiset{}, x); }
  }

  lemma BufGivenUp(chains: Chains, bufs: Bufs, b: nat)
    requires Counted(chains, bufs, multiset{}, multiset{}) && b in bufs && bufs[b].held
    ensures Counted(chains, bufs[b := bufs[b].(held := false)], multiset{}, multiset{b})
  {
    var bufs' := bufs[b := bufs[b].(held := false)];
    forall x ensures ChainOk(chains, bufs', multiset{}, x) {
      assert ChainOk(chains, bufs, multiset{}, x) && Owners(bufs', x) == Owners(bufs, x);
    }
    forall x ensures BufOk(chains, bufs', multiset{b}, x) { assert BufOk(chains, bufs, multiset{}, x); }
  }

  lemma ChainTrimmed(chains: Chains, bufs: Bufs, c: nat, len: nat)
    requires Counted(chains, bufs, multiset{}, multiset{}) && c in chains && len > 0
    ensures Counted(chains[c := chains[c].(len := len)], bufs, multiset{}, multiset{})
  {
    var chains' := chains[c := chains[c].(len := len)];
    forall x ensures ChainOk(chains', bufs, multiset{}, x) {
      assert ChainOk(chains, bufs, multiset{}, x) && Shows(chains', x) == Shows(chains, x);
    }
    forall b ensures BufOk(chains', bufs, multiset{}, b) {
      assert BufOk(chains, bufs, multiset{}, b) && Uses(chains', b) == Uses(chains, b);
    }
  }

  /** The first n chains of src go to dst, in front of its own or behind them. */
  ghost function Moved(bufs: Bufs, dst: nat, src: nat, n: nat, front: bool): Bufs
    requires dst in bufs && src in bufs && dst != src && n <= |bufs[src].list|
  {
    var d, m := bufs[dst].list, bufs[src].list[..n];
    bufs[dst := bufs[dst].(list := if front then m + d else d + m)][src := bufs[src].(list := bufs[src].list[n..])]
  }

  lemma ListMoved(chains: Chains, bufs: Bufs, dst: nat, src: nat, n: nat, front: bool)
    requires Counted(chains, bufs, multiset{}, multiset{}) && dst in bufs && src in bufs && dst != src
    requires n <= |bufs[src].list|
    ensures Counted(chains, Moved(bufs, dst, src, n, front), multiset{}, multiset{})
  {
    var bufs' := Moved(bufs, dst, src, n, front);
    var d, m, r := bufs[dst].list, bufs[src].list[..n], bufs[src].list[n..];
    assert BufOk(chains, bufs, multiset{}, dst) && BufOk(chains, bufs, multiset{}, src);
    assert m + r == bufs[src].list;
    NoDuplicatesParts(m, r);
    forall c | c in m ensures c !in d { OneList(chains, bufs, c, src, dst); }
    NoDuplicatesJoined(m, d);
    NoDuplicatesJoined(d, m);
    forall c ensures ChainOk(chains, bufs', multiset{}, c) {
      assert ChainOk(chains, bufs, multiset{}, c);
      if c in m {
        OneList(chains, bufs, c, src, dst);
        OnlyOwner(chains, bufs, c, src);
        forall b | b in bufs' ensures c in bufs'[b].list <==> b == dst {
          assert b in Owners(bufs, c) <==> b == src;
        }
        assert Owners(bufs', c) == {dst};
      } else {
        assert Owners(bufs', c) == Owners(bufs, c);
      }
    }
    forall b ensures BufOk(chains, bufs', multiset{}, b) { assert BufOk(chains, bufs, multiset{}, b); }
  }

  lemma OnlyOwner(chains: Chains, bufs: Bufs, c: nat, b: nat)
    requires Counted(chains, bufs, multiset{}, multiset{}) && b in bufs && c in bufs[b].list && c in chains
    ensures Owners(bufs, c) == {b}
  {
    assert ChainOk(chains, bufs, multiset{}, c) && b in Owners(bufs, c);
    OneLess(Owners(bufs, c), b);
  }

  /** No chain is in two lists. */
  lemma OneList(chains: Chains, bufs: Bufs, c: nat, a: nat, b: nat)
    requires Counted(chains, bufs, multiset{}, multiset{}) && a in bufs && b in bufs && a != b && c in bufs[a].list
    ensures c in chains && c !in bufs[b].list
  {
    assert BufOk(chains, bufs, multiset{}, a);
    OnlyOwner(chains, bufs, c, a);
    assert b !in Owners(bufs, c);
  }

  lemma NextDebt(dc: multiset<nat>, list: seq<nat>, i: nat)
    requires i < |list|
    ensures list[i] in multiset(list[i..]) &&
            dc + multiset(list[i..]) - multiset{list[i]} == dc + multiset(list[i + 1..])
  {
    assert list[i..] == [list[i]] + list[i + 1..];
  }

  /** A buffer with an empty chain and no data is the destination of a reference: its chain is freed twice. */
  method ExpandedFreedTwice() returns (r: Outcome)
    ensures r == FreedTwice
  {
    var w := new World();
    var dst := w.NewBuf();
    var empty := w.Insert(dst, 0);
    var src := w.NewBuf();
    var full := w.Insert(src, 1);
    assert w.bufs[dst].list == [empty] && w.bufs[src].list == [full];
    assert w.chains[empty].len == 0 && w.chains[full].len == 1;
    r := w.AddBufferReference(dst, src, false);
  }

  datatype Event =
    | Makes
    | Frees(b: nat)
    | Drains(b: nat, n: nat)
    | Trims(b: nat, n: nat)
    | Inserts(b: nat, len: nat)
    | Adds(dst: nat, src: nat, frozen: bool)
    | Prepends(dst: nat, src: nat, frozen: bool)
    | Moves(dst: nat, src: nat, n: nat)
    | References(dst: nat, src: nat, frozen: bool)

  /** The event names buffers that their users hold, and chains that are there. */
  predicate Possible(e: Event, chains: Chains, bufs: Bufs) {
    match e
    case Makes => true
    case Frees(b) => Held(b, bufs)
    case Drains(b, n) => Held(b, bufs) && n <= |bufs[b].list|
    case Trims(b, n) =>
      Held(b, bufs) && bufs[b].list != [] && bufs[b].list[0] in chains && n < chains[bufs[b].list[0]].len
    case Inserts(b, len) => Held(b, bufs)
    case Moves(dst, src, n) => Held(dst, bufs) && Held(src, bufs) && dst != src && n <= |bufs[src].list|
    case _ => Held(e.dst, bufs) && Held(e.src, bufs)
  }

  predicate Held(b: nat, bufs: Bufs) { b in bufs && bufs[b].held }

  predicate DataIn(list: seq<nat>, chains: Chains) { exists c | c in list :: c in chains && chains[c].len > 0 }

  predicate MulticastIn(list: seq<nat>,
                        chains: Chains) { exists c | c in list :: c in chains && chains[c].origin.Some? }

  /** One event, if it is possible; twice says that chains would be freed twice. */
  method Do(w: World, e: Event) returns (twice: bool)
    requires w.Valid()
    modifies w
    ensures !twice ==> w.Valid()
    ensures !Possible(e, old(w.chains), old(w.bufs)) ==> !twice && w.chains == old(w.chains) && w.bufs == old(w.bufs)
    ensures e.Makes? ==> exists b: nat :: b !in old(w.bufs) && w.bufs == old(w.bufs)[b := Buf(1, [], true)]
    ensures e.Frees? && old(Held(e.b, w.bufs)) ==>
              Fewer(old(w.chains), old(w.bufs)[e.b := old(w.bufs[e.b]).(held := false)], w.chains, w.bufs)
    ensures e.Drains? && Possible(e, old(w.chains), old(w.bufs)) ==>
              e.b in w.bufs && w.bufs[e.b].list == old(w.bufs[e.b].list)[e.n..]
    ensures e.Trims? && Possible(e, old(w.chains), old(w.bufs)) ==>
              var c := old(w.bufs[e.b].list[0]);
              w.bufs == old(w.bufs) &&
              w.chains == old(w.chains)[c := old(w.chains)[c].(len := old(w.chains)[c].len - e.n)]
    ensures e.Inserts? && old(Held(e.b, w.bufs)) ==>
              e.b in w.bufs && w.bufs[e.b].list != [] &&
              var c := w.bufs[e.b].list[|w.bufs[e.b].list| - 1];
              c !in old(w.chains) && c in w.chains && w.chains[c] == Node(1, None, e.len)
    ensures e.Moves? && Possible(e, old(w.chains), old(w.bufs)) ==>
              && e.dst in w.bufs && e.src in w.bufs && w.bufs[e.src].list == old(w.bufs[e.src].list)[e.n..]
              && |w.bufs[e.dst].list| >= e.n
              && w.bufs[e.dst].list[|w.bufs[e.dst].list| - e.n..] == old(w.bufs[e.src].list)[..e.n]
    ensures (e.Adds? || e.Prepends?) && Possible(e, old(w.chains), old(w.bufs)) ==>
              e.src in w.bufs && e.dst in w.bufs &&
              var from, to := old(w.bufs[e.src].list), w.bufs[e.dst].list;
              if e.dst != e.src && !e.frozen && DataIn(from, old(w.chains)) then
                w.bufs[e.src].list == [] && |to| >= |from| &&
                from == if e.Adds? then to[|to| - |from|..] else to[..|from|]
              else w.bufs == old(w.bufs) && w.chains == old(w.chains)
    ensures e.References? && Possible(e, old(w.chains), old(w.bufs)) ==>
              var from, to := old(w.bufs[e.src].list), old(w.bufs[e.dst].list);
              (twice <==> DataIn(from, old(w.chains)) && !e.frozen && e.dst != e.src &&
                          !MulticastIn(from, old(w.chains)) && !DataIn(to, old(w.chains)) && to != [])
    ensures e.References? && Possible(e, old(w.chains), old(w.bufs)) && !twice ==>
              e.src in w.bufs && w.bufs[e.src].list == old(w.bufs[e.src].list)
    ensures twice ==> e.References?
  {
    twice := false;
    if Possible(e, w.chains, w.bufs) {
      match e {
        case Makes =>
          var b := w.NewBuf();
        case Frees(b) => w.FreeBuf(b);
        case Drains(b, n) => w.DrainChains(b, n);
        case Trims(b, n) => w.TrimFirst(b, n);
        case Inserts(b, len) =>
          var c := w.Insert(b, len);
        case Adds(dst, src, frozen) =>
          assert BufOk(w.chains, w.bufs, multiset{}, src);
          var ok := w.AddBuffer(dst, src, frozen);
        case Prepends(dst, src, frozen) =>
          assert BufOk(w.chains, w.bufs, multiset{}, dst) && BufOk(w.chains, w.bufs, multiset{}, src);
          var ok := w.PrependBuffer(dst, src, frozen);
        case Moves(dst, src, n) => w.MoveChains(dst, src, n);
        case References(dst, src, frozen) =>
          assert BufOk(w.chains, w.bufs, multiset{}, dst) && BufOk(w.chains, w.bufs, multiset{}, src);
          var r := w.AddBufferReference(dst, src, frozen);
          twice := r == FreedTwice;
      }
    }
  }

  /** Any run of the users, those events left out that name a buffer that its user has given up, and up to
      the point where chains would be freed twice: a chain is alive exactly as long as a list holds it or
      another chain shows it, and a buffer as long as its user holds it or one of its chains is shown. */
  method Run(events: seq<Event>) returns (w: World, twice: bool)
    ensures fresh(w) && (!twice ==> w.Valid())
    ensures !twice ==> forall c :: c in w.chains <==> Owners(w.bufs, c) != {} || Shows(w.chains, c) != {}
    ensures !twice ==> forall b :: b in w.bufs <==> (b in w.bufs && w.bufs[b].held) || Uses(w.chains, b) != {}
  {
    w := new World();
    for i := 0 to |events|
      invariant fresh(w) && w.Valid()
    {
      twice := Do(w, events[i]);
      if twice {
        return;
      }
    }
    twice := false;
    forall c ensures c in w.chains <==> Owners(w.bufs, c) != {} || Shows(w.chains, c) != {} {
      AliveIffReferenced(w, c);
    }
    forall b ensures b in w.bufs <==> (b in w.bufs && w.bufs[b].held) || Uses(w.chains, b) != {} {
      SourceOutlives(w, b);
    }
  }
}
