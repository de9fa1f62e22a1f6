/** The records of the resolver as values: which requests are inflight, which wait, and how they are
    filed and counted. */
module ResolverLists {
  import opened Basics

  /** A request is known by the handle of its user, which outlives it. */
  type Handle = nat

  /** ns: the server it was last sent to, if any; transmitMe: it still has to go out. */
  datatype Request = Request(ns: Option<nat>, transId: nat, txCount: nat, reissues: nat, transmitMe: bool)

  datatype Nameserver = Nameserver(up: bool, choked: bool, inflight: int, timedout: nat, probe: Option<Handle>)

  const NO_ID := 0xffff

  function Flying(reqs: map<Handle, Request>): set<Handle> { set h | h in reqs && reqs[h].ns.Some? }

  function Parked(reqs: map<Handle, Request>): set<Handle> { set h | h in reqs && reqs[h].ns.None? }

  /** The inflight requests that are assigned to server k. */
  function On(reqs: map<Handle, Request>, k: nat): set<Handle> { set h | h in reqs && reqs[h].ns == Some(k) }

  function Slot(r: Request, n: nat): (b: nat)
    requires n > 0
    ensures b < n
  {
    r.transId % n
  }

  /** The inflight requests that belong in list b of n. */
  function Bucket(reqs: map<Handle, Request>, b: nat, n: nat): set<Handle>
    requires n > 0
  {
    set h | h in Flying(reqs) && Slot(reqs[h], n) == b
  }

  /** The list has the members of the set, each once. */
  ghost predicate Listed(l: seq<Handle>, s: set<Handle>) {
    && (forall i, j :: 0 <= i < j < |l| ==> l[i] != l[j])
    && (forall i :: 0 <= i < |l| ==> l[i] in s)
    && (forall h <- s :: At(l, h))
  }

  ghost predicate At(l: seq<Handle>, h: Handle) { exists i :: 0 <= i < |l| && l[i] == h }

  ghost predicate Filed(reqs: map<Handle, Request>, heads: seq<seq<Handle>>) {
    |heads| > 0 && forall b :: 0 <= b < |heads| ==> FiledAt(reqs, heads, b)
  }

  ghost predicate FiledAt(reqs: map<Handle, Request>, heads: seq<seq<Handle>>, b: nat)
    requires b < |heads|
  {
    Listed(heads[b], Bucket(reqs, b, |heads|))
  }

  /** Each server's counter is the number of the requests assigned to it. */
  ghost predicate Counted(reqs: map<Handle, Request>, servers: map<nat, Nameserver>) {
    && (forall h <- Flying(reqs) :: Assigned(reqs[h], servers))
    && (forall k <- servers :: CountedAt(reqs, servers, k))
  }

  ghost predicate Assigned(r: Request, servers: map<nat, Nameserver>) {
    r.ns.Some? && r.ns.value in servers && r.transId < NO_ID
  }

  ghost predicate CountedAt(reqs: map<Handle, Request>, servers: map<nat, Nameserver>, k: nat)
    requires k in servers
  {
    servers[k].inflight == |On(reqs, k)|
  }

  function Up(servers: map<nat, Nameserver>): set<nat> { set k | k in servers && servers[k].up }

  lemma {:induction false} ListedSize(l: seq<Handle>, s: set<Handle>)
    requires Listed(l, s)
    ensures |l| == |s|
    decreases |l|
  {
    if l == [] {
      assert forall h :: !At(l, h);
      assert s == {};
    } else {
      var n := |l| - 1;
      ListedRemove(l, s, n);
      assert l[..n] + l[n + 1..] == l[..n];
      ListedSize(l[..n], s - {l[n]});
    }
  }

  lemma {:induction false} ListedAppend(l: seq<Handle>, s: set<Handle>, h: Handle)
    requires Listed(l, s) && h !in s
    ensures Listed(l + [h], s + {h})
  {
    forall x | x in s + {h} ensures At(l + [h], x) {
      if x == h {
        assert (l + [h])[|l|] == x;
      } else {
        assert At(l, x);
        var i :| 0 <= i < |l| && l[i] == x;
        assert (l + [h])[i] == x;
      }
    }
  }

  lemma {:induction false} ListedRemove(l: seq<Handle>, s: set<Handle>, at: nat)
    requires Listed(l, s) && at < |l|
    ensures Listed(l[..at] + l[at + 1..], s - {l[at]})
  {
    var m := l[..at] + l[at + 1..];
    assert forall i :: 0 <= i < |m| ==> m[i] == l[if i < at then i else i + 1];
    forall x | x in s - {l[at]} ensures At(m, x) {
      assert At(l, x);
      var i :| 0 <= i < |l| && l[i] == x;
      assert m[if i < at then i else i - 1] == x;
    }
  }

  /** The lengths of the first b lists, added up. */
  function Lengths(heads: seq<seq<Handle>>, b: nat): nat
    requires b <= |heads|
  {
    if b == 0 then 0 else Lengths(heads, b - 1) + |heads[b - 1]|
  }

  function Below(reqs: map<Handle, Request>, b: nat, n: nat): set<Handle>
    requires n > 0
  {
    set h | h in Flying(reqs) && Slot(reqs[h], n) < b
  }

  lemma {:induction false} LengthsBelow(reqs: map<Handle, Request>, heads: seq<seq<Handle>>, b: nat)
    requires Filed(reqs, heads) && b <= |heads|
    ensures Lengths(heads, b) == |Below(reqs, b, |heads|)|
  {
    var n := |heads|;
    if b == 0 {
      assert Below(reqs, 0, n) == {};
    } else {
      LengthsBelow(reqs, heads, b - 1);
      assert FiledAt(reqs, heads, b - 1);
      ListedSize(heads[b - 1], Bucket(reqs, b - 1, n));
      assert Below(reqs, b, n) == Below(reqs, b - 1, n) + Bucket(reqs, b - 1, n);
    }
  }

  /** All the lists of inflight requests together have as many members as there are such requests. */
  lemma {:induction false} LengthsAdd(reqs: map<Handle, Request>, heads: seq<seq<Handle>>)
    requires Filed(reqs, heads)
    ensures Lengths(heads, |heads|) == |Flying(reqs)|
  {
    LengthsBelow(reqs, heads, |heads|);
    assert Below(reqs, |heads|, |heads|) == Flying(reqs);
  }

  /** A request is put at the end of its list. */
  lemma {:induction false} FiledIn(reqs: map<Handle, Request>, heads: seq<seq<Handle>>, h: Handle, r: Request)
    requires Filed(reqs, heads) && h !in Flying(reqs) && r.ns.Some?
    ensures
      var b := Slot(r, |heads|);
      Filed(reqs[h := r], heads[b := heads[b] + [h]])
  {
    var b, n := Slot(r, |heads|), |heads|;
    var after, lists := reqs[h := r], heads[b := heads[b] + [h]];
    forall c | 0 <= c < n ensures FiledAt(after, lists, c) {
      assert FiledAt(reqs, heads, c);
      if c == b {
        ListedAppend(heads[b], Bucket(reqs, b, n), h);
        assert Bucket(after, b, n) == Bucket(reqs, b, n) + {h};
      } else {
        assert Bucket(after, c, n) == Bucket(reqs, c, n);
      }
    }
  }

  /** A request is taken from its list. */
  lemma {:induction false} FiledOut(reqs: map<Handle, Request>, heads: seq<seq<Handle>>, h: Handle, at: nat)
    requires Filed(reqs, heads) && h in Flying(reqs)
    requires var b := Slot(reqs[h], |heads|); at < |heads[b]| && heads[b][at] == h
    ensures
      var b := Slot(reqs[h], |heads|);
      Filed(reqs - {h}, heads[b := heads[b][..at] + heads[b][at + 1..]])
  {
    var b, n := Slot(reqs[h], |heads|), |heads|;
    var after, lists := reqs - {h}, heads[b := heads[b][..at] + heads[b][at + 1..]];
    forall c | 0 <= c < n ensures FiledAt(after, lists, c) {
      assert FiledAt(reqs, heads, c);
      if c == b {
        ListedRemove(heads[b], Bucket(reqs, b, n), at);
        assert Bucket(after, b, n) == Bucket(reqs, b, n) - {h};
      } else {
        assert Bucket(after, c, n) == Bucket(reqs, c, n);
      }
    }
  }

  /** A request stays in its list when it keeps its identifier. */
  lemma {:induction false} FiledStill(reqs: map<Handle, Request>, heads: seq<seq<Handle>>, h: Handle, r: Request)
    requires Filed(reqs, heads) && h in Flying(reqs) && r.ns.Some? && r.transId == reqs[h].transId
    ensures Filed(reqs[h := r], heads)
  {
    var after, n := reqs[h := r], |heads|;
    forall c | 0 <= c < n ensures FiledAt(after, heads, c) {
      assert FiledAt(reqs, heads, c);
      assert Slot(r, n) == Slot(reqs[h], n);
      assert Bucket(after, c, n) == Bucket(reqs, c, n);
    }
  }

  /** A request gets a server, be it its first or another one. */
  lemma {:induction false} CountedIn(
    reqs: map<Handle, Request>, servers: map<nat, Nameserver>, h: Handle, r: Request, server: Nameserver)
    requires Counted(reqs, servers) && h !in Flying(reqs) && Assigned(r, servers)
    requires server.inflight == servers[r.ns.value].inflight + 1
    ensures Counted(reqs[h := r], servers[r.ns.value := server])
  {
    var after, k := reqs[h := r], r.ns.value;
    var now := servers[k := server];
    forall x | x in Flying(after) ensures Assigned(after[x], now) {
      if x != h {
        assert x in Flying(reqs) && Assigned(reqs[x], servers);
      }
    }
    forall j | j in now ensures CountedAt(after, now, j) {
      assert CountedAt(reqs, servers, j);
      OnIn(reqs, h, r, j);
    }
  }

  lemma {:induction false} OnIn(reqs: map<Handle, Request>, h: Handle, r: Request, k: nat)
    requires h !in Flying(reqs)
    ensures |On(reqs[h := r], k)| == |On(reqs, k)| + if r.ns == Some(k) then 1 else 0
  {
    assert h !in On(reqs, k);
    if r.ns == Some(k) {
      assert On(reqs[h := r], k) == On(reqs, k) + {h};
    } else {
      assert On(reqs[h := r], k) == On(reqs, k);
    }
  }

  lemma {:induction false} CountedOut(
    reqs: map<Handle, Request>, servers: map<nat, Nameserver>, h: Handle, k: nat, server: Nameserver)
    requires Counted(reqs, servers) && h in reqs && reqs[h].ns == Some(k) && k in servers
    requires server.inflight == servers[k].inflight - 1
    ensures Counted(reqs - {h}, servers[k := server])
  {
    var after := reqs - {h};
    var now := servers[k := server];
    forall x | x in Flying(after) ensures Assigned(after[x], now) {
      assert x in Flying(reqs) && Assigned(reqs[x], servers);
    }
    forall j | j in now ensures CountedAt(after, now, j) {
      assert CountedAt(reqs, servers, j);
      if j == k {
        assert On(after, k) == On(reqs, k) - {h};
      } else {
        assert On(after, j) == On(reqs, j);
      }
    }
  }

  /** Neither the request nor the server changes what is counted. */
  lemma {:induction false} CountedStill(
    reqs: map<Handle, Request>, servers: map<nat, Nameserver>, h: Handle, r: Request)
    requires Counted(reqs, servers) && h in reqs && r.ns == reqs[h].ns && r.transId == reqs[h].transId
    ensures Counted(reqs[h := r], servers)
  {
    var after := reqs[h := r];
    forall x | x in Flying(after) ensures Assigned(after[x], servers) {
      assert x in Flying(reqs) && Assigned(reqs[x], servers);
    }
    forall j | j in servers ensures CountedAt(after, servers, j) {
      assert CountedAt(reqs, servers, j);
      assert On(after, j) == On(reqs, j);
    }
  }

  lemma {:induction false} CountedServer(
    reqs: map<Handle, Request>, servers: map<nat, Nameserver>, k: nat, server: Nameserver)
    requires Counted(reqs, servers) && k in servers && server.inflight == servers[k].inflight
    ensures Counted(reqs, servers[k := server])
  {
    var now := servers[k := server];
    forall x | x in Flying(reqs) ensures Assigned(reqs[x], now) {
      assert Assigned(reqs[x], servers);
    }
    forall j | j in now ensures CountedAt(reqs, now, j) {
      assert CountedAt(reqs, servers, j);
    }
  }

  /** Fewer than 65535 requests leave an identifier free. */
  lemma {:induction false} FreeId(reqs: map<Handle, Request>)
    requires |Flying(reqs)| < NO_ID
    ensures exists id :: 0 <= id < NO_ID && !InUse(reqs, id)
  {
    if forall id :: 0 <= id < NO_ID ==> InUse(reqs, id) {
      var used := Pigeons(reqs, NO_ID);
    }
  }

  predicate InUse(reqs: map<Handle, Request>, id: nat) { exists h <- Flying(reqs) :: reqs[h].transId == id }

  lemma {:induction false} Pigeons(reqs: map<Handle, Request>, n: nat) returns (holders: set<Handle>)
    requires forall id :: 0 <= id < n ==> InUse(reqs, id)
    ensures holders <= Flying(reqs) && |holders| == n
    ensures forall h <- holders :: reqs[h].transId < n
    ensures n <= |Flying(reqs)|
  {
    if n == 0 {
      holders := {};
    } else {
      var rest := Pigeons(reqs, n - 1);
      assert InUse(reqs, n - 1);
      var h :| h in Flying(reqs) && reqs[h].transId == n - 1;
      holders := rest + {h};
    }
    SubsetSize(holders, Flying(reqs));
  }
}
