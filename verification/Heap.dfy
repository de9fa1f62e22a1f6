/** The priority queue: a heap in an array, whose first place is not used. */
module Heap {
  /** No node is greater than its parent; the nodes count from one. */
  ghost predicate Edge(g: seq<int>, j: nat) { 2 <= j <= |g| ==> g[j / 2 - 1] >= g[j - 1] }

  ghost predicate IsHeap(g: seq<int>) { forall j :: Edge(g, j) }

  /** Like IsHeap, but only for the nodes whose parents are at the place or after it. */
  ghost predicate IsHeapFrom(g: seq<int>, from: nat) { forall j :: EdgeFrom(g, from, j) }

  ghost predicate EdgeFrom(g: seq<int>, from: nat, j: nat) { j / 2 >= from ==> Edge(g, j) }

  function Swap(g: seq<int>, i: nat, j: nat): (s: seq<int>)
    requires 1 <= i <= |g| && 1 <= j <= |g|
    ensures |s| == |g| && multiset(s) == multiset(g)
  {
    g[i - 1 := g[j - 1]][j - 1 := g[i - 1]]
  }

  lemma Swapped(g: seq<int>, i: nat, j: nat)
    requires 1 <= i <= |g| && 1 <= j <= |g|
    ensures Swap(g, i, j)[i - 1] == g[j - 1] && Swap(g, i, j)[j - 1] == g[i - 1]
    ensures forall k :: 0 <= k < |g| && k != i - 1 && k != j - 1 ==> Swap(g, i, j)[k] == g[k]
  {
  }

  /** On the way up, only the node i may be greater than its parent; its children are not greater than
      its parent either. */
  ghost predicate Rising(g: seq<int>, i: nat) {
    1 <= i <= |g| && forall j :: RisingAt(g, i, j)
  }

  ghost predicate RisingAt(g: seq<int>, i: nat, j: nat)
    requires 1 <= i <= |g|
  {
    && (j != i ==> Edge(g, j))
    && (j <= |g| && j / 2 == i && i >= 2 ==> g[i / 2 - 1] >= g[j - 1])
  }

  lemma RiseOn(g: seq<int>, i: nat)
    requires Rising(g, i) && i >= 2 && g[i / 2 - 1] < g[i - 1]
    ensures Rising(Swap(g, i / 2, i), i / 2)
  {
    var s := Swap(g, i / 2, i);
    forall j ensures RisingAt(s, i / 2, j) {
      assert RisingAt(g, i, j) && RisingAt(g, i, i / 2);
    }
  }

  lemma RiseEnds(g: seq<int>, i: nat)
    requires Rising(g, i) && (i == 1 || g[i / 2 - 1] >= g[i - 1])
    ensures IsHeap(g)
  {
    forall j ensures Edge(g, j) { assert RisingAt(g, i, j); }
  }

  /** On the way down, only the children of node i may be greater than it; they are not greater than its
      parent, if that is at the place or after it. */
  ghost predicate Sinking(g: seq<int>, from: nat, i: nat) {
    1 <= from <= i <= |g| && forall j :: SinkingAt(g, from, i, j)
  }

  ghost predicate SinkingAt(g: seq<int>, from: nat, i: nat, j: nat)
    requires 1 <= from <= i <= |g|
  {
    && (j / 2 >= from && j / 2 != i ==> Edge(g, j))
    && (j <= |g| && j / 2 == i && i / 2 >= from ==> g[i / 2 - 1] >= g[j - 1])
  }

  /** The greater child of a node. */
  ghost predicate Greatest(g: seq<int>, i: nat, c: nat) {
    && 1 <= i && c / 2 == i && c <= |g|
    && forall j :: j / 2 == i && j <= |g| ==> g[j - 1] <= g[c - 1]
  }

  lemma SinkOn(g: seq<int>, from: nat, i: nat, c: nat)
    requires Sinking(g, from, i) && Greatest(g, i, c) && g[i - 1] < g[c - 1]
    ensures Sinking(Swap(g, i, c), from, c)
  {
    var s := Swap(g, i, c);
    forall j ensures SinkingAt(s, from, c, j) {
      assert SinkingAt(g, from, i, j) && SinkingAt(g, from, i, c);
    }
  }

  lemma SinkEnds(g: seq<int>, from: nat, i: nat)
    requires Sinking(g, from, i)
    requires forall j :: j / 2 == i && j <= |g| ==> g[j - 1] <= g[i - 1]
    ensures IsHeapFrom(g, from)
  {
    forall j ensures EdgeFrom(g, from, j) { assert SinkingAt(g, from, i, j); }
  }

  /** The root is the greatest. */
  lemma {:induction false} RootGreatest(g: seq<int>, i: nat)
    requires IsHeap(g) && 1 <= i <= |g|
    ensures g[0] >= g[i - 1]
    decreases i
  {
    if i > 1 {
      assert Edge(g, i);
      RootGreatest(g, i / 2);
    }
  }

  /** HeapT. */
  class Queue {
    /** m_Heap, with one place more than m_MaxSize. */
    const data: array<int>
    var size: nat

    ghost predicate Shape()
      reads this
    {
      1 <= data.Length && size < data.Length
    }

    ghost function Items(): (g: seq<int>)
      requires Shape()
      reads this, data
      ensures |g| == size
    {
      data[1..size + 1]
    }

    ghost predicate Valid()
      reads this, data
    {
      Shape() && IsHeap(Items())
    }

    constructor (maxSize: nat)
      ensures Valid() && Items() == [] && data.Length == maxSize + 1 && fresh(data)
    {
      data := new int[maxSize + 1](_ => 0);
      size := 0;
    }

    /** The array has the items, but for the place i, which is open. */
    ghost predicate Open(g: seq<int>, i: nat)
      requires Shape()
      reads this, data
    {
      |g| == size && forall k :: 1 <= k <= size && k != i ==> data[k] == g[k - 1]
    }

    /** Push: the parents that are less move down, and the new item takes the place that this opens. */
    method Push(x: int) returns (ok: bool)
      requires Valid()
      modifies this`size, data
      ensures Valid()
      ensures ok <==> old(size) < data.Length - 1
      ensures multiset(Items()) == if ok then old(multiset(Items())) + multiset{x} else old(multiset(Items()))
    {
      if size == data.Length - 1 {
        return false;
      }
      ghost var g := Items() + [x];
      Append(Items(), x);
      size := size + 1;
      var i := size;
      while i != 1 && data[i / 2] < x
        invariant Shape() && size == old(size) + 1 && 1 <= i <= size
        invariant Open(g, i) && g[i - 1] == x && Rising(g, i)
        invariant multiset(g) == old(multiset(Items())) + multiset{x}
        decreases i
      {
        RiseOn(g, i);
        data[i] := data[i / 2];
        g := Swap(g, i / 2, i);
        i := i / 2;
      }
      RiseEnds(g, i);
      data[i] := x;
      assert Items() == g;
      return true;
    }

    /** The way down of Pop and of Build: the greater children move up, as long as they are greater than
        the item, which takes the place that this opens. */
    method SiftDown(start: nat, x: int, ghost items: seq<int>)
      requires Shape() && 1 <= start <= size && Open(items, start) && items[start - 1] == x
      requires Sinking(items, start, start)
      modifies data
      ensures multiset(Items()) == multiset(items) && IsHeapFrom(Items(), start)
      ensures forall k :: 1 <= k < start ==> data[k] == old(data[k])
    {
      hide Sinking, IsHeapFrom, Swap;
      ghost var g := items;
      var i, c := start, 2 * start;
      while c <= size
        invariant start <= i <= size && c == 2 * i && Open(g, i) && g[i - 1] == x && Sinking(g, start, i)
        invariant multiset(g) == multiset(items)
        invariant forall k :: 1 <= k < start ==> data[k] == old(data[k])
        decreases size - i
      {
        if c < size && data[c] < data[c + 1] {
          c := c + 1;
        }
        assert Greatest(g, i, c);
        if !(x < data[c]) {
          break;
        }
        SinkOn(g, start, i, c);
        Swapped(g, i, c);
        data[i] := data[c];
        g := Swap(g, i, c);
        i := c;
        c := 2 * c;
      }
      SinkEnds(g, start, i);
      data[i] := x;
      assert Items() == g;
    }

    /** Pop: the root goes, and the last item finds its place from there. */
    method Pop() returns (ok: bool)
      requires Valid()
      modifies this`size, data
      ensures Valid()
      ensures ok <==> old(size) > 0
      ensures ok ==> multiset(Items()) == old(multiset(Items())) - multiset{old(Items()[0])} && size == old(size) - 1
      ensures !ok ==> Items() == old(Items())
    {
      if size == 0 {
        return false;
      }
      ghost var g := Items();
      var x := data[size];
      size := size - 1;
      if size == 0 {
        data[1] := x;
        assert g == [x];
        return true;
      }
      MoveLast(g);
      SiftDown(1, x, g[0 := x][..size]);
      FromRoot(Items());
      return true;
    }

    /** Root: the greatest item. */
    method Root() returns (r: int)
      requires Valid() && size > 0
      ensures r == Items()[0] && forall x <- Items() :: x <= r
    {
      r := data[1];
      forall x | x in Items() ensures x <= r {
        var k :| 0 <= k < |Items()| && Items()[k] == x;
        RootGreatest(Items(), k + 1);
      }
    }

    /** Build: the items are put down as they come, and every node that has children is sifted, the last
        one first. */
    method Build(vals: seq<int>) returns (ok: bool)
      requires Shape()
      modifies this`size, data
      ensures ok <==> |vals| < data.Length
      ensures ok ==> Valid() && multiset(Items()) == multiset(vals)
      ensures !ok ==> unchanged(this) && unchanged(data)
    {
      if |vals| > data.Length - 1 {
        return false;
      }
      for i := 0 to |vals|
        invariant forall k :: 0 <= k < i ==> data[k + 1] == vals[k]
      {
        data[i + 1] := vals[i];
      }
      size := |vals|;
      assert Items() == vals;
      var i := size / 2;
      Leaves(Items(), i + 1);
      while i >= 1
        invariant Shape() && size == |vals| && 0 <= i <= size / 2
        invariant multiset(Items()) == multiset(vals) && IsHeapFrom(Items(), i + 1)
        decreases i
      {
        NodeSinks(Items(), i);
        SiftDown(i, data[i], Items());
        i := i - 1;
      }
      FromRoot(Items());
      return true;
    }
  }

  lemma Append(g: seq<int>, x: int)
    requires IsHeap(g)
    ensures Rising(g + [x], |g| + 1) && multiset(g + [x]) == multiset(g) + multiset{x}
  {
    var h := g + [x];
    forall j ensures RisingAt(h, |h|, j) { assert Edge(g, j); }
  }

  /** The last item has taken the place of the root. */
  lemma MoveLast(g: seq<int>)
    requires IsHeap(g) && |g| >= 2
    ensures
      var n := |g| - 1;
      var s := g[0 := g[n]][..n];
      Sinking(s, 1, 1) && multiset(s) == multiset(g) - multiset{g[0]}
  {
    var n := |g| - 1;
    var t := g[0 := g[n]];
    var s := t[..n];
    forall j ensures SinkingAt(s, 1, 1, j) { assert Edge(g, j); }
    WithoutLast(g, t, s);
  }

  lemma WithoutLast(g: seq<int>, t: seq<int>, s: seq<int>)
    requires |g| >= 2 && t == g[0 := g[|g| - 1]] && s == t[..|g| - 1]
    ensures multiset(s) == multiset(g) - multiset{g[0]}
  {
    assert t == s + [g[|g| - 1]];
    assert g[0] in multiset(g);
    forall e ensures multiset(s)[e] == (multiset(g) - multiset{g[0]})[e] {
      assert multiset(t)[e] == multiset(s)[e] + multiset{g[|g| - 1]}[e];
    }
  }

  lemma FromRoot(g: seq<int>)
    requires IsHeapFrom(g, 1)
    ensures IsHeap(g)
  {
    forall j ensures Edge(g, j) { assert EdgeFrom(g, 1, j); }
  }

  lemma Leaves(g: seq<int>, from: nat)
    requires from > |g| / 2
    ensures IsHeapFrom(g, from)
  {
  }

  lemma NodeSinks(g: seq<int>, i: nat)
    requires IsHeapFrom(g, i + 1) && 1 <= i <= |g|
    ensures Sinking(g, i, i)
  {
    forall j ensures SinkingAt(g, i, i, j) { assert EdgeFrom(g, i + 1, j); }
  }

  ghost predicate Descending(s: seq<int>) { forall i, j :: 0 <= i < j < |s| ==> s[i] >= s[j] }

  /** The greatest item is taken out. */
  method TakeRoot(q: Queue) returns (r: int)
    requires q.Valid() && q.size > 0
    modifies q`size, q.data
    ensures q.Valid() && q.size == old(q.size) - 1
    ensures multiset(q.Items()) == old(multiset(q.Items())) - multiset{r}
    ensures r in old(q.Items()) && forall x <- q.Items() :: x in old(q.Items()) && x <= r
  {
    r := q.Root();
    ghost var items := q.Items();
    var ok := q.Pop();
    forall x | x in q.Items() ensures x in items && x <= r {
      assert x in multiset(q.Items());
      assert x in multiset(items);
    }
  }

  /** Items that are put into the queue come out in descending order, each as often as it went in. */
  method Sort(vals: seq<int>) returns (sorted: seq<int>)
    ensures Descending(sorted) && multiset(sorted) == multiset(vals)
  {
    var q := new Queue(|vals|);
    var ok := q.Build(vals);
    sorted := [];
    while q.size > 0
      invariant fresh(q) && fresh(q.data) && q.Valid()
      invariant multiset(sorted) + multiset(q.Items()) == multiset(vals)
      invariant Descending(sorted) && Above(sorted, q.Items())
      decreases q.size
    {
      ghost var items := q.Items();
      var r := TakeRoot(q);
      StillAbove(sorted, items, q.Items(), r);
      sorted := sorted + [r];
    }
    assert q.Items() == [];
  }

  ghost predicate Above(s: seq<int>, t: seq<int>) { forall x <- s, y <- t :: x >= y }

  lemma StillAbove(s: seq<int>, items: seq<int>, rest: seq<int>, r: int)
    requires Descending(s) && Above(s, items) && r in items
    requires forall x <- rest :: x in items && x <= r
    ensures Descending(s + [r]) && Above(s + [r], rest)
  {
    forall i | 0 <= i < |s| ensures s[i] >= r {
      assert s[i] in s;
    }
  }
}
