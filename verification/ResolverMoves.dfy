/** What one step of the resolver does to its records: relations between the records before and after,
    and the steps that keep them filed and counted. */
module ResolverMoves {
  import opened Basics
  import opened ResolverLists

  /** The requests are the same, but for their servers, and what has been sent of them. */
  ghost predicate Carries(before: map<Handle, Request>, after: map<Handle, Request>) {
    && before.Keys == after.Keys
    && forall h <- before :: SameRequest(before[h], after[h])
  }

  ghost predicate SameRequest(r: Request, s: Request) {
    && s.transId == r.transId
    && (r.ns.Some? <==> s.ns.Some?)
    && (r.ns.None? ==> s == r)
    && (Active(r) ==> Active(s))
  }

  /** The request has been sent, or is marked to be sent. */
  predicate Active(r: Request) { r.txCount > 0 || r.transmitMe }

  ghost predicate Moving(reqs: map<Handle, Request>) { forall h <- Flying(reqs) :: Active(reqs[h]) }

  /** What sendto does with a packet; TryLater also when the socket is known to take no more. */
  datatype Sent = Out | TryLater | Broken

  /** Unless it has to wait, the packet counts as sent; also when the server fails, for the timer runs. */
  predicate Attempted(r: Request, s: Request, sent: Sent) {
    && s == r.(ns := s.ns, transmitMe := sent == TryLater, txCount := s.txCount)
    && s.txCount == r.txCount + (if sent == TryLater then 0 else 1)
  }

  /** Server k was asked to take the packet of h. */
  ghost predicate Tried(a: map<Handle, Request>, b: map<Handle, Request>, s: map<nat, Nameserver>,
                        t: map<nat, Nameserver>, h: Handle, k: nat, sent: Sent) {
    && h in a && h in b && k in s && Attempted(a[h], b[h], sent) && (sent != TryLater ==> !s[k].choked)
    && if sent == Broken && s[k].up then
      SameServers(s[k := s[k].(up := false)], t) && MovedOff(a, b[h := a[h].(ns := b[h].ns)], k, t)
    else
      b == a[h := b[h]] && b[h].ns == a[h].ns && t == if sent == TryLater then s[k := s[k].(choked := true)] else s
  }

  lemma {:induction false} TriedNoted(a: map<Handle, Request>, b: map<Handle, Request>, s: map<nat, Nameserver>,
                                      t: map<nat, Nameserver>, h: Handle, k: nat, sent: Sent)
    requires h in a && Tried(a[h := a[h].(transmitMe := true)], b, s, t, h, k, sent)
    ensures Tried(a, b, s, t, h, k, sent)
  {
    var n := a[h := a[h].(transmitMe := true)];
    if sent == Broken && s[k].up {
      var c, d := b[h := n[h].(ns := b[h].ns)], b[h := a[h].(ns := b[h].ns)];
      assert d.Keys == c.Keys == n.Keys == a.Keys;
      forall x | x in a ensures MovedOne(a[x], d[x], k, t) {
        assert MovedOne(n[x], c[x], k, t);
      }
    }
  }

  /** The packet went out, or its server failed, which has moved requests from a to m. */
  lemma {:induction false} TriedOn(a: map<Handle, Request>, m: map<Handle, Request>, b: map<Handle, Request>,
                                   s: map<nat, Nameserver>, t: map<nat, Nameserver>, h: Handle, k: nat, sent: Sent)
    requires h in a && h in m && a[h].ns == Some(k) && k in s && sent != TryLater && !s[k].choked
    requires b == m[h := m[h].(txCount := m[h].txCount + 1, transmitMe := false)]
    requires if sent == Broken && s[k].up then
        SameServers(s[k := s[k].(up := false)], t) && MovedOff(a, m, k, t)
      else m == a && t == s
    ensures Tried(a, b, s, t, h, k, sent)
  {
    if sent == Broken && s[k].up {
      assert MovedOne(a[h], m[h], k, t);
      forall x | x in a ensures MovedOne(a[x], b[h := a[h].(ns := b[h].ns)][x], k, t) {
        assert MovedOne(a[x], m[x], k, t);
      }
    }
  }

  // ----- what still has to go out

  /** No server has gone down. */
  ghost predicate NoneFell(before: map<nat, Nameserver>, after: map<nat, Nameserver>) {
    before.Keys == after.Keys && forall k <- before :: after[k].up == before[k].up
  }

  lemma {:induction false} NoneFellSelf(servers: map<nat, Nameserver>)
    ensures NoneFell(servers, servers)
  {
  }

  lemma {:induction false} FallsSelf(servers: map<nat, Nameserver>)
    ensures Falls(servers, servers)
  {
  }

  lemma {:induction false} FallsOn(a: map<nat, Nameserver>, b: map<nat, Nameserver>, c: map<nat, Nameserver>)
    requires Falls(a, b) && Falls(b, c)
    ensures Falls(a, c) && (NoneFell(a, c) ==> NoneFell(a, b) && NoneFell(b, c))
  {
    forall k | k in a ensures (c[k].up ==> a[k].up) && c[k].probe == a[k].probe {
      assert b[k].up ==> a[k].up;
    }
  }

  /** If the request still has to go out, the socket of its server takes no more. */
  ghost predicate StuckOne(r: Request, servers: map<nat, Nameserver>) {
    r.transmitMe && r.ns.Some? ==> r.ns.value in servers && servers[r.ns.value].choked
  }

  ghost predicate Stuck(reqs: map<Handle, Request>, servers: map<nat, Nameserver>, seen: set<Handle>) {
    forall h <- seen :: h in reqs ==> StuckOne(reqs[h], servers)
  }

  lemma {:induction false} NoneStuck(reqs: map<Handle, Request>, servers: map<nat, Nameserver>)
    ensures Stuck(reqs, servers, {})
  {
  }

  lemma {:induction false} FewerStuck(reqs: map<Handle, Request>, servers: map<nat, Nameserver>, seen: set<Handle>,
                                      some: set<Handle>)
    requires some <= seen
    ensures Stuck(reqs, servers, seen) ==> Stuck(reqs, servers, some)
  {
  }

  lemma {:induction false} OneMoreStuck(reqs: map<Handle, Request>, servers: map<nat, Nameserver>, seen: set<Handle>,
                                        h: Handle)
    requires Stuck(reqs, servers, seen) && h in reqs && !reqs[h].transmitMe
    ensures Stuck(reqs, servers, seen + {h})
  {
  }

  lemma {:induction false} BrokenFalls(a: map<Handle, Request>, b: map<Handle, Request>, s: map<nat, Nameserver>,
                                       t: map<nat, Nameserver>, h: Handle, k: nat)
    requires Tried(a, b, s, t, h, k, Broken) && s[k].up
    ensures !NoneFell(s, t)
  {
    assert k in t && !t[k].up;
  }

  lemma {:induction false} TriedStuck(a: map<Handle, Request>, b: map<Handle, Request>, s: map<nat, Nameserver>,
                                      t: map<nat, Nameserver>, h: Handle, k: nat, sent: Sent, seen: set<Handle>)
    requires Tried(a, b, s, t, h, k, sent) && a[h].ns == Some(k) && NoneFell(s, t) && Stuck(a, s, seen)
    ensures Stuck(b, t, seen + {h})
  {
    if sent == Broken && s[k].up {
      BrokenFalls(a, b, s, t, h, k);
    } else {
      forall x | x in seen + {h} && x in b ensures StuckOne(b[x], t) {
        if x != h { assert StuckOne(a[x], s); }
      }
    }
  }

  /** Request h still has to go out to server k. */
  ghost predicate Awaits(reqs: map<Handle, Request>, h: Handle, k: nat) {
    h in reqs && reqs[h].ns == Some(k) && reqs[h].transmitMe
  }

  /** A server that has become choked has a request that still has to go out to it. */
  ghost predicate ChokedFor(reqs: map<Handle, Request>, start: map<nat, Nameserver>, servers: map<nat, Nameserver>) {
    forall k <- servers :: k in start && servers[k].choked && !start[k].choked ==> exists h :: Awaits(reqs, h, k)
  }

  lemma {:induction false} NoneChoked(reqs: map<Handle, Request>, servers: map<nat, Nameserver>)
    ensures ChokedFor(reqs, servers, servers)
  {
  }

  lemma {:induction false} TriedChokes(a: map<Handle, Request>, b: map<Handle, Request>, start: map<nat, Nameserver>,
                                       s: map<nat, Nameserver>, t: map<nat, Nameserver>, h: Handle, k: nat, sent: Sent)
    requires Tried(a, b, s, t, h, k, sent) && a[h].ns == Some(k) && NoneFell(s, t) && ChokedFor(a, start, s)
    ensures ChokedFor(b, start, t)
  {
    if sent == Broken && s[k].up {
      BrokenFalls(a, b, s, t, h, k);
    } else {
      forall j | j in t && j in start && t[j].choked && !start[j].choked ensures exists x :: Awaits(b, x, j) {
        if j == k {
          assert Awaits(b, h, k);
        } else {
          var x :| Awaits(a, x, j);
          assert Awaits(b, x, j);
        }
      }
    }
  }

  // ----- timeouts

  /** nameserver_pick takes the first server that is up, or the next one if none is. */
  ghost predicate Picked(ring: seq<nat>, servers: map<nat, Nameserver>, k: nat) {
    if Up(servers) == {} then ring != [] && k == Turned(ring, 1)[0] else exists i :: PickedFrom(ring, servers, k, i)
  }

  ghost predicate PickedFrom(ring: seq<nat>, servers: map<nat, Nameserver>, k: nat, i: int) {
    && 0 <= i < |ring| && ring[i] == k && k in servers && servers[k].up
    && forall j | 0 <= j < i :: Down(servers, ring[j])
  }

  lemma {:induction false} PickedUp(ring: seq<nat>, servers: map<nat, Nameserver>, k: nat, x: nat)
    requires Picked(ring, servers, k) && x in servers && servers[x].up
    ensures k in servers && servers[k].up
  {
    assert x in Up(servers);
    var i :| PickedFrom(ring, servers, k, i);
  }

  /** The handle has a new request, which waits, or flies with another identifier and is sent or marked to be. */
  predicate Renewed(a: map<Handle, Request>, b: map<Handle, Request>, h: Handle) {
    && h in b && b[h].reissues == 0 && b[h].txCount <= 1
    && (b[h].ns.Some? ==> Active(b[h]) && (h in a ==> b[h].transId != a[h].transId))
  }

  lemma {:induction false} NotItsOwn(reqs: map<Handle, Request>, h: Handle, id: nat)
    requires h in reqs && reqs[h].ns.Some?
    ensures !InUse(reqs, id) ==> id != reqs[h].transId
  {
    assert h in Flying(reqs);
  }

  /** Another server than k is up. */
  ghost predicate OtherUp(servers: map<nat, Nameserver>, k: nat) {
    exists x :: x in servers && x != k && servers[x].up
  }

  lemma {:induction false} OtherStays(before: map<nat, Nameserver>, after: map<nat, Nameserver>, k: nat)
    requires OtherUp(before, k) && k in before && SameServers(before[k := before[k].(up := false)], after)
    ensures OtherUp(after, k)
  {
    var x :| x in before && x != k && before[x].up;
    assert x in after && after[x].up;
  }

  lemma {:induction false} PickedOther(ring: seq<nat>, servers: map<nat, Nameserver>, picked: nat, k: nat)
    requires OtherUp(servers, k) && Picked(ring, servers, picked) && Down(servers, k)
    ensures picked != k
  {
    var x :| x in servers && x != k && servers[x].up;
    PickedUp(ring, servers, picked, x);
  }

  /** Request h goes out once more, to another server than k. */
  predicate Reissued(a: map<Handle, Request>, b: map<Handle, Request>, h: Handle, k: nat) {
    && h in a && h in b && b[h].ns.Some? && b[h].ns != Some(k) && b[h].reissues == a[h].reissues + 1
    && b[h].txCount == 0 && b[h].transmitMe
  }

  /** One more timeout of server j, which fails with it if there are more than max. */
  ghost predicate Late(a: map<Handle, Request>, b: map<Handle, Request>, s: map<nat, Nameserver>,
                       t: map<nat, Nameserver>, j: nat, max: nat) {
    && j in s
    && if s[j].timedout + 1 <= max then b == a && t == s[j := s[j].(timedout := s[j].timedout + 1)]
    else
      && SameServers(s[j := s[j].(timedout := 0, up := false)], t)
      && MovedOff(a, b, j, t) && (!s[j].up ==> b == a)
  }

  lemma {:induction false} LateOnce(a: map<Handle, Request>, s: map<nat, Nameserver>, t: map<nat, Nameserver>, j: nat,
                                    max: nat)
    requires j in s && s[j].timedout + 1 <= max && t == s[j := s[j].(timedout := s[j].timedout + 1)]
    ensures Late(a, a, s, t, j, max)
  {
  }

  lemma {:induction false} LateFails(a: map<Handle, Request>, b: map<Handle, Request>, s: map<nat, Nameserver>,
                                     u: map<nat, Nameserver>, t: map<nat, Nameserver>, j: nat, max: nat)
    requires j in s && s[j].timedout + 1 > max && j in u && u == s[j := s[j].(timedout := 0)]
    requires SameServers(u[j := u[j].(up := false)], t) && MovedOff(a, b, j, t) && (!s[j].up ==> b == a)
    ensures Late(a, b, s, t, j, max) && t.Keys == s.Keys
  {
    assert u[j := u[j].(up := false)] == s[j := s[j].(timedout := 0, up := false)];
  }

  /** What a timeout does to a server: whether the packet broke its connection or had to wait, and whether the
      timeout is counted for it. */
  predicate Suffers(s: Nameserver, t: Nameserver, broken: bool, full: bool, counts: bool, max: nat) {
    && t.timedout == (if !counts then s.timedout else if s.timedout + 1 > max then 0 else s.timedout + 1)
    && t.up == (s.up && !broken && !(counts && s.timedout + 1 > max))
    && t.choked == (s.choked || full) && t.probe == s.probe
  }

  /** Only its server can be another one, if it has never been sent. */
  predicate MayMove(r: Request, s: Request) {
    s == r || (r.txCount == 0 && s.ns.Some? && s == r.(ns := s.ns))
  }

  /** Request h timed out and was given to server k, and the timeout is counted for server j. That is k, unless
      k broke down and h has never been sent; h stays with it, unless it fails too and h still has to go out. */
  ghost predicate Retransmitted(a: map<Handle, Request>, b: map<Handle, Request>, s: map<nat, Nameserver>,
                                t: map<nat, Nameserver>, ring: seq<nat>, h: Handle, k: nat, j: nat, sent: Sent,
                                max: nat) {
    && Picked(ring, s, k) && a.Keys == b.Keys && s.Keys == t.Keys && h in a && j in s
    && Attempted(a[h], b[h], sent)
    && (j == k || (sent == Broken && a[h].txCount == 0 && k in s && s[k].up && s[j].up))
    && (b[h].ns == Some(j) || (b[h].txCount == 0 && s[j].up && s[j].timedout + 1 > max && b[h].ns.Some? &&
                               b[h].ns.value in t && t[b[h].ns.value].up))
    && (forall x <- s :: Suffers(s[x], t[x], sent == Broken && x == k, sent == TryLater && x == k, x == j, max))
    && (forall x <- a :: x != h ==> MayMove(a[x], b[x]))
  }

  lemma {:induction false} TriedSuffers(a: map<Handle, Request>, b: map<Handle, Request>, s: map<nat, Nameserver>,
                                        t: map<nat, Nameserver>, h: Handle, k: nat, sent: Sent, x: nat)
    requires Tried(a, b, s, t, h, k, sent) && x in s
    ensures x in t && t[x] == s[x].(inflight := t[x].inflight, up := s[x].up && !(sent == Broken && x == k),
                                    choked := s[x].choked || (sent == TryLater && x == k))
  {
  }

  lemma {:induction false} LateSuffers(a: map<Handle, Request>, b: map<Handle, Request>, s: map<nat, Nameserver>,
                                       t: map<nat, Nameserver>, j: nat, max: nat, x: nat)
    requires Late(a, b, s, t, j, max) && x in s
    ensures x in t && Suffers(s[x], t[x], false, false, x == j, max)
  {
  }

  lemma {:induction false} TriedKnows(a: map<Handle, Request>, b: map<Handle, Request>, s: map<nat, Nameserver>,
                                      t: map<nat, Nameserver>, h: Handle, k: nat, sent: Sent)
    requires Tried(a, b, s, t, h, k, sent)
    ensures k in s && s.Keys == t.Keys
  {
  }

  lemma {:induction false} LateKnows(a: map<Handle, Request>, b: map<Handle, Request>, s: map<nat, Nameserver>,
                                     t: map<nat, Nameserver>, j: nat, max: nat)
    requires Late(a, b, s, t, j, max)
    ensures j in s && s.Keys == t.Keys
  {
  }

  /** What a try does to the requests. */
  lemma {:induction false} TriedMoves(a: map<Handle, Request>, b: map<Handle, Request>, s: map<nat, Nameserver>,
                                      t: map<nat, Nameserver>, h: Handle, k: nat, sent: Sent)
    requires Tried(a, b, s, t, h, k, sent) && a[h].ns == Some(k)
    ensures b.Keys == a.Keys && Attempted(a[h], b[h], sent)
    ensures forall x <- a :: x != h ==> MayMove(a[x], b[x])
    ensures b[h].ns == a[h].ns || (sent == Broken && a[h].txCount == 0 && s[k].up && b[h].ns.Some? &&
                                   b[h].ns.value in t && t[b[h].ns.value].up)
  {
    if sent == Broken && s[k].up {
      var c := b[h := a[h].(ns := b[h].ns)];
      assert MovedOne(a[h], c[h], k, t);
      assert b.Keys == c.Keys;
      forall x | x in a && x != h ensures MayMove(a[x], b[x]) {
        assert MovedOne(a[x], c[x], k, t);
      }
    }
  }

  lemma {:induction false} LateMoves(a: map<Handle, Request>, b: map<Handle, Request>, s: map<nat, Nameserver>,
                                     t: map<nat, Nameserver>, j: nat, max: nat, h: Handle)
    requires Late(a, b, s, t, j, max) && h in a && a[h].ns == Some(j)
    ensures b.Keys == a.Keys && b[h] == a[h].(ns := b[h].ns)
    ensures forall x <- a :: MayMove(a[x], b[x])
    ensures b[h].ns == a[h].ns || (a[h].txCount == 0 && s[j].up && s[j].timedout + 1 > max && b[h].ns.Some? &&
                                   b[h].ns.value in t && t[b[h].ns.value].up)
  {
    if s[j].timedout + 1 > max {
      forall x | x in a ensures MayMove(a[x], b[x]) {
        assert MovedOne(a[x], b[x], j, t);
      }
    }
  }

  /** A request is swapped, its packet tried, and the timeout counted. */
  lemma {:induction false} RetransmittedSo(
    a: map<Handle, Request>, m: map<Handle, Request>, n: map<Handle, Request>, b: map<Handle, Request>,
    s: map<nat, Nameserver>, u: map<nat, Nameserver>, v: map<nat, Nameserver>, t: map<nat, Nameserver>,
    ring: seq<nat>, h: Handle, k: nat, j: nat, sent: Sent, max: nat)
    requires Picked(ring, s, k) && h in a && m == a[h := a[h].(ns := Some(k))] && SameServers(s, u)
    requires Tried(m, n, u, v, h, k, sent) && n[h].ns == Some(j) && Late(n, b, v, t, j, max)
    requires a.Keys == b.Keys && s.Keys == t.Keys
    ensures Retransmitted(a, b, s, t, ring, h, k, j, sent, max)
  {
    hide Tried, Late, Picked;
    TriedKnows(m, n, u, v, h, k, sent);
    LateKnows(n, b, v, t, j, max);
    forall x | x in s ensures Suffers(s[x], t[x], sent == Broken && x == k, sent == TryLater && x == k, x == j, max) {
      TriedSuffers(m, n, u, v, h, k, sent, x);
      LateSuffers(n, b, v, t, j, max, x);
    }
    TriedMoves(m, n, u, v, h, k, sent);
    LateMoves(n, b, v, t, j, max, h);
    TriedSuffers(m, n, u, v, h, k, sent, j);
  }

  lemma {:induction false} OnceMore(a: map<Handle, Request>, b: map<Handle, Request>, h: Handle, sent: Sent)
    requires h in a && h in b && Attempted(a[h], b[h], sent)
    ensures b[h].txCount == a[h].txCount + if sent == TryLater then 0 else 1
  {
  }

  lemma {:induction false} EachActive(reqs: map<Handle, Request>, h: Handle)
    requires Moving(reqs) && h in reqs && reqs[h].ns.Some?
    ensures Active(reqs[h])
  {
    assert h in Flying(reqs);
  }

  /** One more request flies, and has become active. */
  lemma {:induction false} MovingLifted(a: map<Handle, Request>, h: Handle, r: Request, b: map<Handle, Request>)
    requires Moving(a) && Carries(a[h := r], b) && Active(b[h])
    ensures Moving(b)
  {
    forall x | x in Flying(b) ensures Active(b[x]) {
      assert SameRequest(a[h := r][x], b[x]);
      assert x != h ==> x in Flying(a);
    }
  }

  lemma {:induction false} CarriesOn(a: map<Handle, Request>, b: map<Handle, Request>, c: map<Handle, Request>)
    requires Carries(a, b) && Carries(b, c)
    ensures Carries(a, c)
  {
    forall h | h in a ensures SameRequest(a[h], c[h]) {
      assert SameRequest(a[h], b[h]) && SameRequest(b[h], c[h]);
    }
  }

  lemma {:induction false} CarriesSelf(a: map<Handle, Request>)
    ensures Carries(a, a)
  {
  }

  lemma {:induction false} CarriesSets(a: map<Handle, Request>, b: map<Handle, Request>)
    requires Carries(a, b)
    ensures Flying(a) == Flying(b) && Parked(a) == Parked(b)
  {
    assert forall h <- a :: SameRequest(a[h], b[h]);
  }

  /** The servers are the same, but for their counters. */
  ghost predicate SameServers(before: map<nat, Nameserver>, after: map<nat, Nameserver>) {
    before.Keys == after.Keys && forall k <- before :: after[k] == before[k].(inflight := after[k].inflight)
  }

  lemma {:induction false} SameServersUp(before: map<nat, Nameserver>, after: map<nat, Nameserver>)
    requires SameServers(before, after)
    ensures Up(before) == Up(after)
  {
  }

  /** No server comes up, and none loses its probe. */
  ghost predicate Falls(before: map<nat, Nameserver>, after: map<nat, Nameserver>) {
    && before.Keys == after.Keys
    && forall k <- before :: (after[k].up ==> before[k].up) && after[k].probe == before[k].probe
  }

  /** Server k has failed: its requests that have never been sent may move to servers that are up. */
  ghost predicate MovedOff(before: map<Handle, Request>, after: map<Handle, Request>, k: nat, servers: map<nat,
                           Nameserver>) {
    before.Keys == after.Keys && forall h <- before :: MovedOne(before[h], after[h], k, servers)
  }

  ghost predicate MovedOne(r: Request, s: Request, k: nat, servers: map<nat, Nameserver>) {
    || s == r
    || (r.ns == Some(k) && r.txCount == 0 && s.ns.Some? && s == r.(ns := s.ns)
        && s.ns.value in servers && servers[s.ns.value].up)
  }

  /** The counters once a request has gone from server j to server k. */
  function Shifted(servers: map<nat, Nameserver>, j: nat, k: nat): map<nat, Nameserver>
    requires j in servers && k in servers
  {
    var less := servers[j := servers[j].(inflight := servers[j].inflight - 1)];
    less[k := less[k].(inflight := less[k].inflight + 1)]
  }

  lemma {:induction false} ShiftedSame(servers: map<nat, Nameserver>, j: nat, k: nat)
    requires j in servers && k in servers
    ensures SameServers(servers, Shifted(servers, j, k))
  {
  }

  lemma {:induction false} SwappedCounts(reqs: map<Handle, Request>, servers: map<nat, Nameserver>, h: Handle, k: nat)
    requires Counted(reqs, servers) && h in Flying(reqs) && k in servers
    ensures reqs[h].ns.value in servers && servers[reqs[h].ns.value].inflight > 0
    ensures Counted(reqs[h := reqs[h].(ns := Some(k))], Shifted(servers, reqs[h].ns.value, k))
  {
    var r, j := reqs[h].(ns := Some(k)), reqs[h].ns.value;
    assert Assigned(reqs[h], servers);
    assert CountedAt(reqs, servers, j);
    assert h in On(reqs, j);
    var less := servers[j := servers[j].(inflight := servers[j].inflight - 1)];
    CountedOut(reqs, servers, h, j, less[j]);
    CountedIn(reqs - {h}, less, h, r, less[k].(inflight := less[k].inflight + 1));
    assert (reqs - {h})[h := r] == reqs[h := r];
  }

  lemma {:induction false} SwapSound(
    reqs: map<Handle, Request>, heads: seq<seq<Handle>>, servers: map<nat, Nameserver>, h: Handle, k: nat)
    requires Filed(reqs, heads) && Counted(reqs, servers) && h in Flying(reqs) && k in servers
    ensures reqs[h].ns.value in servers && servers[reqs[h].ns.value].inflight > 0
    ensures
      var after, more := reqs[h := reqs[h].(ns := Some(k))], Shifted(servers, reqs[h].ns.value, k);
      && Filed(after, heads) && Counted(after, more) && SameServers(servers, more) && Carries(reqs, after)
      && Flying(after) == Flying(reqs) && Parked(after) == Parked(reqs) && Up(more) == Up(servers)
  {
    var r := reqs[h].(ns := Some(k));
    SwappedCounts(reqs, servers, h, k);
    ShiftedSame(servers, reqs[h].ns.value, k);
    SameServersUp(servers, Shifted(servers, reqs[h].ns.value, k));
    FiledStill(reqs, heads, h, r);
    CarriesOne(reqs, h, r);
    CarriesSets(reqs, reqs[h := r]);
  }

  /** The circular list, seen from its member i on. */
  function Turned(ring: seq<nat>, i: nat): (t: seq<nat>)
    requires i <= |ring|
    ensures |t| == |ring|
  {
    ring[i..] + ring[..i]
  }

  lemma {:induction false} TurnedNone(ring: seq<nat>)
    ensures Turned(ring, 0) == ring
  {
  }

  lemma {:induction false} TurnedHead(ring: seq<nat>, i: nat)
    requires i < |ring|
    ensures Turned(ring, i)[0] == ring[i]
  {
  }

  lemma {:induction false} TurnedOnce(ring: seq<nat>, i: nat)
    requires i < |ring|
    ensures Turned(Turned(ring, i), 1) == Turned(ring, i + 1)
  {
    var t := Turned(ring, i);
    assert t[1..] == ring[i + 1..] + ring[..i];
    assert t[..1] == [ring[i]];
    assert ring[..i + 1] == ring[..i] + [ring[i]];
  }

  lemma {:induction false} ListedTurned(ring: seq<nat>, s: set<nat>)
    requires Listed(ring, s) && ring != []
    ensures Turned(ring, 1) == ring[1..] + [ring[0]]
    ensures Listed(Turned(ring, 1), s)
  {
    var rest, first := ring[1..], ring[0];
    ListedRemove(ring, s, 0);
    assert ring[..0] + rest == rest;
    ListedAppend(rest, s - {first}, first);
    assert s - {first} + {first} == s;
    assert ring[..1] == [first];
  }

  ghost predicate Down(servers: map<nat, Nameserver>, k: nat) { k in servers && !servers[k].up }

  /** Server k was the first one up, i places on; the list now starts after it. */
  ghost predicate PickedAt(before: seq<nat>, after: seq<nat>, servers: map<nat, Nameserver>, k: nat, i: nat) {
    && i < |before| && before[i] == k && after == Turned(before, i + 1)
    && (forall j :: 0 <= j < i ==> Down(servers, before[j]))
  }

  /** While a server is up, the walk over those that are down does not come round. */
  lemma {:induction false} NotRound(ring: seq<nat>, i: nat, servers: map<nat, Nameserver>)
    requires Listed(ring, servers.Keys) && 0 < i <= |ring| && Up(servers) != {}
    requires forall j :: 0 <= j < i ==> Down(servers, ring[j])
    ensures i < |ring| && Turned(ring, i)[0] != ring[0]
  {
    var x :| x in Up(servers);
    assert At(ring, x);
    var j :| 0 <= j < |ring| && ring[j] == x;
    assert !Down(servers, ring[j]);
  }

  lemma {:induction false} MovedOn(a: map<Handle, Request>, b: map<Handle, Request>, c: map<Handle, Request>,
                                   k: nat, s: map<nat, Nameserver>, t: map<nat, Nameserver>)
    requires MovedOff(a, b, k, s) && MovedOff(b, c, k, t) && SameServers(s, t)
    ensures MovedOff(a, c, k, t)
  {
    forall h | h in a ensures MovedOne(a[h], c[h], k, t) {
      assert MovedOne(a[h], b[h], k, s) && MovedOne(b[h], c[h], k, t);
    }
  }

  lemma {:induction false} MovedSelf(a: map<Handle, Request>, k: nat, s: map<nat, Nameserver>)
    ensures MovedOff(a, a, k, s)
  {
  }

  lemma {:induction false} MovedHere(a: map<Handle, Request>, h: Handle, r: Request, k: nat, s: map<nat, Nameserver>)
    requires h in a && MovedOne(a[h], r, k, s)
    ensures MovedOff(a, a[h := r], k, s)
  {
    forall x | x in a ensures MovedOne(a[x], a[h := r][x], k, s) {
    }
  }

  /** What has been moved off server k stays so. */
  lemma {:induction false} StayGone(a: map<Handle, Request>, b: map<Handle, Request>, k: nat, s: map<nat, Nameserver>,
                                    seen: set<Handle>)
    requires MovedOff(a, b, k, s) && Down(s, k) && seen <= a.Keys && AllGone(a, seen, k)
    ensures AllGone(b, seen, k)
  {
    forall h | h in seen ensures h in b && Gone(b[h], k) {
      assert MovedOne(a[h], b[h], k, s) && Gone(a[h], k);
    }
  }

  ghost predicate AllGone(reqs: map<Handle, Request>, seen: set<Handle>, k: nat) {
    forall h <- seen :: h in reqs && Gone(reqs[h], k)
  }

  /** A request that waits to go out does not wait for server k. */
  ghost predicate Gone(r: Request, k: nat) { r.ns == Some(k) ==> r.txCount > 0 }

  ghost predicate Within(l: seq<Handle>, s: set<Handle>) { forall i :: 0 <= i < |l| ==> l[i] in s }

  lemma {:induction false} EveryOne(reqs: map<Handle, Request>, heads: seq<seq<Handle>>, seen: set<Handle>)
    requires Filed(reqs, heads) && forall b :: 0 <= b < |heads| ==> Within(heads[b], seen)
    ensures Flying(reqs) <= seen
  {
    forall h | h in Flying(reqs) ensures h in seen {
      var b := Slot(reqs[h], |heads|);
      assert FiledAt(reqs, heads, b) && h in Bucket(reqs, b, |heads|) && Within(heads[b], seen);
      assert At(heads[b], h);
    }
  }

  lemma {:induction false} InList(reqs: map<Handle, Request>, heads: seq<seq<Handle>>, b: nat, i: nat)
    requires Filed(reqs, heads) && b < |heads| && i < |heads[b]|
    ensures heads[b][i] in Flying(reqs)
  {
    assert FiledAt(reqs, heads, b);
  }

  lemma {:induction false} TakenDown(reqs: map<Handle, Request>, servers: map<nat, Nameserver>, k: nat)
    requires Counted(reqs, servers) && k in servers && servers[k].up
    ensures
      var after := servers[k := servers[k].(up := false)];
      Counted(reqs, after) && |Up(after)| == |Up(servers)| - 1
  {
    var after := servers[k := servers[k].(up := false)];
    CountedServer(reqs, servers, k, after[k]);
    assert Up(after) == Up(servers) - {k};
  }

  lemma {:induction false} TakenUp(reqs: map<Handle, Request>, servers: map<nat, Nameserver>, k: nat)
    requires Counted(reqs, servers) && k in servers && !servers[k].up
    ensures
      var after := servers[k := servers[k].(up := true, timedout := 0)];
      Counted(reqs, after) && |Up(after)| == |Up(servers)| + 1
  {
    var after := servers[k := servers[k].(up := true, timedout := 0)];
    CountedServer(reqs, servers, k, after[k]);
    UpAdded(servers, k, after[k]);
  }

  lemma {:induction false} UpAdded(servers: map<nat, Nameserver>, k: nat, server: Nameserver)
    requires server.up && (k in servers ==> !servers[k].up)
    ensures |Up(servers[k := server])| == |Up(servers)| + 1
  {
    assert Up(servers[k := server]) == Up(servers) + {k};
    assert k !in Up(servers);
  }

  lemma {:induction false} CarriesOne(reqs: map<Handle, Request>, h: Handle, r: Request)
    requires h in reqs && SameRequest(reqs[h], r)
    ensures Carries(reqs, reqs[h := r])
  {
    forall x | x in reqs ensures SameRequest(reqs[x], reqs[h := r][x]) {
    }
  }

  /** A request takes note of something that is neither its server nor its identifier. */
  lemma {:induction false} NoteSound(
    reqs: map<Handle, Request>, heads: seq<seq<Handle>>, servers: map<nat, Nameserver>, h: Handle, r: Request)
    requires Filed(reqs, heads) && Counted(reqs, servers) && h in Flying(reqs)
    requires r.ns == reqs[h].ns && r.transId == reqs[h].transId
    ensures
      var after := reqs[h := r];
      && Filed(after, heads) && Counted(after, servers)
      && Flying(after) == Flying(reqs) && Parked(after) == Parked(reqs)
  {
    FiledStill(reqs, heads, h, r);
    CountedStill(reqs, servers, h, r);
  }

  lemma {:induction false} ServerSound(reqs: map<Handle, Request>, servers: map<nat, Nameserver>, k: nat,
                                       server: Nameserver)
    requires Counted(reqs, servers) && k in servers
    requires server.inflight == servers[k].inflight && server.up == servers[k].up
    ensures Counted(reqs, servers[k := server]) && Up(servers[k := server]) == Up(servers)
  {
    CountedServer(reqs, servers, k, server);
  }

  lemma {:induction false} MovedCarries(a: map<Handle, Request>, b: map<Handle, Request>, k: nat, s: map<nat,
                                        Nameserver>)
    requires MovedOff(a, b, k, s)
    ensures Carries(a, b)
  {
    forall h | h in a ensures SameRequest(a[h], b[h]) {
      assert MovedOne(a[h], b[h], k, s);
    }
  }

  /** No two inflight requests have the same identifier. */
  ghost predicate Unique(reqs: map<Handle, Request>) {
    forall g, h :: g in Flying(reqs) && h in Flying(reqs) && g != h ==> reqs[g].transId != reqs[h].transId
  }

  lemma {:induction false} Collided(reqs: map<Handle, Request>, g: Handle, h: Handle)
    requires g in reqs && h in reqs && g != h && reqs[g].ns.Some? && reqs[h].ns.Some?
    requires reqs[g].transId == reqs[h].transId
    ensures !Unique(reqs)
  {
    assert g in Flying(reqs) && h in Flying(reqs);
  }

  /** Some that waited fly; nothing else has changed but servers and what has been sent. */
  ghost predicate Pumped(before: map<Handle, Request>, after: map<Handle, Request>) {
    before.Keys == after.Keys && forall h <- before :: PumpedOne(before[h], after[h])
  }

  ghost predicate PumpedOne(r: Request, s: Request) {
    SameRequest(r, s) || (r.ns.None? && s.ns.Some?)
  }

  /** An identifier that no inflight request has. */
  ghost predicate CanDraw(reqs: map<Handle, Request>, id: nat) { id < NO_ID && !InUse(reqs, id) }

  /** Request h flies with this identifier. */
  ghost predicate FliesWith(reqs: map<Handle, Request>, h: Handle, id: nat) {
    h in reqs && reqs[h].ns.Some? && reqs[h].transId == id
  }

  /** Request h flies before and after, with one identifier. */
  ghost predicate SameFlight(before: map<Handle, Request>, after: map<Handle, Request>, h: Handle) {
    h in before && h in after && before[h].ns.Some? && after[h].ns.Some? && after[h].transId == before[h].transId
  }

  lemma {:induction false} PumpedKeeps(before: map<Handle, Request>, after: map<Handle, Request>, h: Handle)
    requires Pumped(before, after) && h in before && before[h].ns.Some?
    ensures SameFlight(before, after, h)
  {
    assert PumpedOne(before[h], after[h]);
  }

  lemma {:induction false} PumpedSelf(a: map<Handle, Request>)
    ensures Pumped(a, a)
  {
  }

  lemma {:induction false} PumpedOn(a: map<Handle, Request>, b: map<Handle, Request>, c: map<Handle, Request>)
    requires Pumped(a, b) && Pumped(b, c)
    ensures Pumped(a, c)
  {
    forall h | h in a ensures PumpedOne(a[h], c[h]) {
      assert PumpedOne(a[h], b[h]) && PumpedOne(b[h], c[h]);
    }
  }

  lemma {:induction false} CarriesPumped(a: map<Handle, Request>, b: map<Handle, Request>)
    requires Carries(a, b)
    ensures Pumped(a, b) && (Unique(a) ==> Unique(b)) && (Moving(a) ==> Moving(b))
  {
    CarriesSets(a, b);
    forall h | Moving(a) && h in Flying(b) ensures Active(b[h]) {
      assert SameRequest(a[h], b[h]) && h in Flying(a);
    }
    forall h | h in a ensures PumpedOne(a[h], b[h]) {
      assert SameRequest(a[h], b[h]);
    }
    forall g, h | Unique(a) && g in Flying(b) && h in Flying(b) && g != h ensures b[g].transId != b[h].transId {
      assert SameRequest(a[g], b[g]) && SameRequest(a[h], b[h]);
    }
  }

  lemma {:induction false} NotInList(reqs: map<Handle, Request>, heads: seq<seq<Handle>>, b: nat, id: nat)
    requires Filed(reqs, heads) && b < |heads| && id % |heads| == b
    requires forall c :: 0 <= c < |heads[b]| ==> heads[b][c] in reqs && reqs[heads[b][c]].transId != id
    ensures !InUse(reqs, id)
  {
    forall h | h in Flying(reqs) ensures reqs[h].transId != id {
      var l := heads[Slot(reqs[h], |heads|)];
      assert FiledAt(reqs, heads, Slot(reqs[h], |heads|)) && h in Bucket(reqs, Slot(reqs[h], |heads|), |heads|);
      assert At(l, h);
      var c :| 0 <= c < |l| && l[c] == h;
      assert Slot(reqs[h], |heads|) == b ==> l[c] in reqs && reqs[l[c]].transId != id;
    }
  }

  /** evdns_request_insert */
  function Inserted(heads: seq<seq<Handle>>, r: Request, h: Handle): seq<seq<Handle>>
    requires |heads| > 0
  {
    var b := Slot(r, |heads|);
    heads[b := heads[b] + [h]]
  }

  /** evdns_request_remove */
  function Removed(heads: seq<seq<Handle>>, r: Request, at: nat): seq<seq<Handle>>
    requires |heads| > 0 && at < |heads[Slot(r, |heads|)]|
  {
    var b := Slot(r, |heads|);
    heads[b := heads[b][..at] + heads[b][at + 1..]]
  }

  function Busier(servers: map<nat, Nameserver>, k: nat, d: int): map<nat, Nameserver>
    requires k in servers
  {
    servers[k := servers[k].(inflight := servers[k].inflight + d)]
  }

  lemma {:induction false} LessInUse(reqs: map<Handle, Request>, h: Handle, id: nat)
    ensures !InUse(reqs, id) ==> !InUse(reqs - {h}, id)
  {
    if !InUse(reqs, id) {
      forall x | x in Flying(reqs - {h}) ensures (reqs - {h})[x].transId != id {
        assert x in Flying(reqs);
      }
    }
  }

  /** A request that is nowhere, or waits, goes to the end of its list with a server and an identifier. */
  lemma {:induction false} LiftSound(
    reqs: map<Handle, Request>, heads: seq<seq<Handle>>, servers: map<nat, Nameserver>, h: Handle, r: Request)
    requires Filed(reqs, heads) && Counted(reqs, servers) && h !in Flying(reqs) && Assigned(r, servers)
    ensures
      var after, now := reqs[h := r], Busier(servers, r.ns.value, 1);
      && Filed(after, Inserted(heads, r, h)) && Counted(after, now)
      && Flying(after) == Flying(reqs) + {h} && Parked(after) == Parked(reqs) - {h}
      && Up(now) == Up(servers) && now.Keys == servers.Keys && Falls(servers, now)
      && (Unique(reqs) && !InUse(reqs, r.transId) ==> Unique(after))
  {
    FiledIn(reqs, heads, h, r);
    CountedIn(reqs, servers, h, r, servers[r.ns.value].(inflight := servers[r.ns.value].inflight + 1));
  }

  lemma {:induction false} LiftNew(
    reqs: map<Handle, Request>, heads: seq<seq<Handle>>, servers: map<nat, Nameserver>, h: Handle, r: Request,
    waiting: seq<Handle>)
    requires Filed(reqs, heads) && Counted(reqs, servers) && h !in reqs && Assigned(r, servers)
    requires Listed(waiting, Parked(reqs))
    ensures
      var after, now := reqs[h := r], Busier(servers, r.ns.value, 1);
      && Filed(after, Inserted(heads, r, h)) && Counted(after, now) && Listed(waiting, Parked(after))
      && |Flying(after)| == |Flying(reqs)| + 1 && |Parked(after)| == |Parked(reqs)|
      && |Up(now)| == |Up(servers)| && now.Keys == servers.Keys && Falls(servers, now)
      && (Unique(reqs) && !InUse(reqs, r.transId) ==> Unique(after))
  {
    LiftSound(reqs, heads, servers, h, r);
    assert h !in Flying(reqs) && h !in Parked(reqs);
    assert Parked(reqs[h := r]) == Parked(reqs);
  }

  lemma {:induction false} LiftParked(
    reqs: map<Handle, Request>, heads: seq<seq<Handle>>, servers: map<nat, Nameserver>, h: Handle, r: Request,
    waiting: seq<Handle>)
    requires Filed(reqs, heads) && Counted(reqs, servers) && Assigned(r, servers)
    requires Listed(waiting, Parked(reqs)) && waiting != [] && h == waiting[0]
    ensures
      var after, now := reqs[h := r], Busier(servers, r.ns.value, 1);
      && Filed(after, Inserted(heads, r, h)) && Counted(after, now) && Listed(waiting[1..], Parked(after))
      && |Flying(after)| == |Flying(reqs)| + 1 && |Parked(after)| == |Parked(reqs)| - 1
      && |Up(now)| == |Up(servers)| && now.Keys == servers.Keys && Falls(servers, now)
      && (Unique(reqs) && !InUse(reqs, r.transId) ==> Unique(after))
      && Pumped(reqs, after) && h in Flying(after)
  {
    assert h in Parked(reqs) && h !in Flying(reqs);
    hide Filed, Counted, Unique, Falls, InUse, Listed;
    LiftSound(reqs, heads, servers, h, r);
    ListedRemove(waiting, Parked(reqs), 0);
    assert waiting[..0] + waiting[1..] == waiting[1..];
    PumpedLift(reqs, h, r);
  }

  lemma {:induction false} PumpedLift(reqs: map<Handle, Request>, h: Handle, r: Request)
    requires h in reqs && reqs[h].ns.None? && r.ns.Some?
    ensures Pumped(reqs, reqs[h := r])
  {
    forall x | x in reqs ensures PumpedOne(reqs[x], reqs[h := r][x]) {
    }
  }

  /** An inflight request is gone. */
  lemma {:induction false} LandSound(
    reqs: map<Handle, Request>, heads: seq<seq<Handle>>, servers: map<nat, Nameserver>, h: Handle, at: nat)
    requires Filed(reqs, heads) && Counted(reqs, servers) && h in Flying(reqs)
    requires var l := heads[Slot(reqs[h], |heads|)]; at < |l| && l[at] == h
    ensures reqs[h].ns.value in servers
    ensures
      var after, now := reqs - {h}, Busier(servers, reqs[h].ns.value, -1);
      && Filed(after, Removed(heads, reqs[h], at)) && Counted(after, now)
      && Flying(after) == Flying(reqs) - {h} && Parked(after) == Parked(reqs)
      && Up(now) == Up(servers) && now.Keys == servers.Keys && Falls(servers, now)
      && (Unique(reqs) ==> Unique(after))
      && (Moving(reqs) ==> Moving(after))
  {
    var k := reqs[h].ns.value;
    assert Assigned(reqs[h], servers);
    FiledOut(reqs, heads, h, at);
    CountedOut(reqs, servers, h, k, servers[k].(inflight := servers[k].inflight - 1));
  }

  lemma {:induction false} InItsList(reqs: map<Handle, Request>, heads: seq<seq<Handle>>, h: Handle)
    requires Filed(reqs, heads) && h in Flying(reqs)
    ensures At(heads[Slot(reqs[h], |heads|)], h)
  {
    var b := Slot(reqs[h], |heads|);
    assert FiledAt(reqs, heads, b) && h in Bucket(reqs, b, |heads|);
  }

  lemma {:induction false} LandDone(
    reqs: map<Handle, Request>, heads: seq<seq<Handle>>, servers: map<nat, Nameserver>, h: Handle, at: nat,
    waiting: seq<Handle>)
    requires Filed(reqs, heads) && Counted(reqs, servers) && h in Flying(reqs)
    requires var l := heads[Slot(reqs[h], |heads|)]; at < |l| && l[at] == h
    requires Listed(waiting, Parked(reqs))
    ensures reqs[h].ns.Some? && reqs[h].ns.value in servers
    ensures
      var after, now := reqs - {h}, Busier(servers, reqs[h].ns.value, -1);
      && Filed(after, Removed(heads, reqs[h], at)) && Counted(after, now) && Listed(waiting, Parked(after))
      && |Flying(after)| == |Flying(reqs)| - 1 && |Parked(after)| == |Parked(reqs)|
      && |Up(now)| == |Up(servers)| && now.Keys == servers.Keys && Falls(servers, now)
      && (Unique(reqs) ==> Unique(after))
      && (Moving(reqs) ==> Moving(after))
  {
    LandSound(reqs, heads, servers, h, at);
  }

  lemma {:induction false} UnparkDone(
    reqs: map<Handle, Request>, heads: seq<seq<Handle>>, servers: map<nat, Nameserver>, h: Handle, at: nat,
    waiting: seq<Handle>)
    requires Filed(reqs, heads) && Counted(reqs, servers) && Listed(waiting, Parked(reqs))
    requires at < |waiting| && waiting[at] == h
    ensures
      var after := reqs - {h};
      && Filed(after, heads) && Counted(after, servers) && Listed(waiting[..at] + waiting[at + 1..], Parked(after))
      && |Flying(after)| == |Flying(reqs)| && |Parked(after)| == |Parked(reqs)| - 1
      && (Unique(reqs) ==> Unique(after))
      && (Moving(reqs) ==> Moving(after))
  {
    var after := reqs - {h};
    ListedRemove(waiting, Parked(reqs), at);
    assert Parked(after) == Parked(reqs) - {h} && Flying(after) == Flying(reqs);
    SameFlights(reqs, after, heads, servers);
  }

  lemma {:induction false} ParkDone(
    reqs: map<Handle, Request>, heads: seq<seq<Handle>>, servers: map<nat, Nameserver>, h: Handle, r: Request,
    waiting: seq<Handle>)
    requires Filed(reqs, heads) && Counted(reqs, servers) && Listed(waiting, Parked(reqs))
    requires h !in reqs && r.ns.None?
    ensures
      var after := reqs[h := r];
      && Filed(after, heads) && Counted(after, servers) && Listed(waiting + [h], Parked(after))
      && |Flying(after)| == |Flying(reqs)| && |Parked(after)| == |Parked(reqs)| + 1
      && (Unique(reqs) ==> Unique(after))
      && (Moving(reqs) ==> Moving(after))
  {
    var after := reqs[h := r];
    ListedAppend(waiting, Parked(reqs), h);
    ParkSets(reqs, h, r);
    SameFlights(reqs, after, heads, servers);
  }

  lemma {:induction false} ParkSets(reqs: map<Handle, Request>, h: Handle, r: Request)
    requires h !in reqs && r.ns.None?
    ensures Parked(reqs[h := r]) == Parked(reqs) + {h} && Flying(reqs[h := r]) == Flying(reqs)
    ensures h !in Parked(reqs)
  {
  }

  /** The lists and the counters depend on the inflight requests only. */
  lemma {:induction false} SameFlights(
    a: map<Handle, Request>, b: map<Handle, Request>, heads: seq<seq<Handle>>, servers: map<nat, Nameserver>)
    requires Filed(a, heads) && Counted(a, servers)
    requires Flying(a) == Flying(b) && forall h <- Flying(a) :: a[h] == b[h]
    ensures Filed(b, heads) && Counted(b, servers) && (Unique(a) ==> Unique(b)) && (Moving(a) ==> Moving(b))
  {
    forall c | 0 <= c < |heads| ensures FiledAt(b, heads, c) {
      assert FiledAt(a, heads, c);
      assert Bucket(b, c, |heads|) == Bucket(a, c, |heads|);
    }
    forall h | h in Flying(b) ensures Assigned(b[h], servers) {
      assert Assigned(a[h], servers);
    }
    forall k | k in servers ensures CountedAt(b, servers, k) {
      assert CountedAt(a, servers, k);
      assert On(b, k) == On(a, k) by {
        forall h ensures h in On(b, k) <==> h in On(a, k) {
          assert h in On(b, k) ==> h in Flying(b);
          assert h in On(a, k) ==> h in Flying(a);
        }
      }
    }
  }

  /** How many lists there are for so many inflight requests. */
  function Heads(maxInflight: nat): (n: nat)
    requires maxInflight >= 1
    ensures n >= 1
  {
    (maxInflight + 4) / 5
  }

  lemma {:induction false} ServerAdded(
    reqs: map<Handle, Request>, servers: map<nat, Nameserver>, ring: seq<nat>, k: nat)
    requires Counted(reqs, servers) && Listed(ring, servers.Keys) && k !in servers
    ensures
      var after := servers[k := Nameserver(true, false, 0, 0, None)];
      && Counted(reqs, after) && |Up(after)| == |Up(servers)| + 1
      && Listed(if ring == [] then [k] else [ring[0], k] + ring[1..], after.Keys)
  {
    var after := servers[k := Nameserver(true, false, 0, 0, None)];
    UpAdded(servers, k, after[k]);
    assert after.Keys == servers.Keys + {k};
    forall h | h in Flying(reqs) ensures Assigned(reqs[h], after) {
      assert Assigned(reqs[h], servers);
    }
    forall j | j in after ensures CountedAt(reqs, after, j) {
      if j == k {
        NobodyOn(reqs, servers, k);
      } else {
        assert CountedAt(reqs, servers, j);
      }
    }
    ListedSecond(ring, servers.Keys, k);
  }

  lemma {:induction false} NobodyOn(reqs: map<Handle, Request>, servers: map<nat, Nameserver>, k: nat)
    requires Counted(reqs, servers) && k !in servers
    ensures On(reqs, k) == {}
  {
    forall h | h in reqs ensures reqs[h].ns != Some(k) {
      if reqs[h].ns.Some? {
        assert h in Flying(reqs) && Assigned(reqs[h], servers);
      }
    }
  }

  lemma {:induction false} ListedSecond(l: seq<nat>, s: set<nat>, x: nat)
    requires Listed(l, s) && x !in s
    ensures Listed(if l == [] then [x] else [l[0], x] + l[1..], s + {x})
  {
    var m := if l == [] then [x] else [l[0], x] + l[1..];
    forall y | y in s + {x} ensures At(m, y) {
      if y == x {
        assert m[if l == [] then 0 else 1] == x;
      } else {
        assert At(l, y);
        var i :| 0 <= i < |l| && l[i] == y;
        assert m[if i == 0 then 0 else i + 1] == y;
      }
    }
  }

  /** Some of the requests. */
  function Part(reqs: map<Handle, Request>, some: set<Handle>): map<Handle, Request> {
    map h | h in reqs && h in some :: reqs[h]
  }

  lemma {:induction false} NoneFiled(reqs: map<Handle, Request>, heads: seq<seq<Handle>>)
    requires |heads| > 0 && forall b :: 0 <= b < |heads| ==> heads[b] == []
    ensures Filed(Part(reqs, {}), heads)
  {
    forall b | 0 <= b < |heads| ensures FiledAt(Part(reqs, {}), heads, b) {
      assert heads[b] == [];
    }
  }

  lemma {:induction false} RefileOne(reqs: map<Handle, Request>, moved: set<Handle>, heads: seq<seq<Handle>>, h: Handle)
    requires Filed(Part(reqs, moved), heads) && h in Flying(reqs) && h !in moved
    ensures Filed(Part(reqs, moved + {h}), Inserted(heads, reqs[h], h))
  {
    FiledIn(Part(reqs, moved), heads, h, reqs[h]);
    assert Part(reqs, moved)[h := reqs[h]] == Part(reqs, moved + {h});
  }

  lemma {:induction false} AllFiled(
    reqs: map<Handle, Request>, heads: seq<seq<Handle>>, moved: set<Handle>, servers: map<nat, Nameserver>)
    requires Filed(Part(reqs, moved), heads) && moved == Flying(reqs) && Counted(reqs, servers)
    ensures Filed(reqs, heads)
  {
    var part := Part(reqs, moved);
    assert Flying(part) == Flying(reqs);
    forall c | 0 <= c < |heads| ensures FiledAt(reqs, heads, c) {
      assert FiledAt(part, heads, c);
      assert Bucket(reqs, c, |heads|) == Bucket(part, c, |heads|);
    }
  }
}
