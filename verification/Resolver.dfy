/** The requests of an evdns_base and its nameservers. */
module Resolver {
  import opened Basics
  import opened ResolverLists
  import opened ResolverMoves

  /** What a nameserver says: all is well, NOTIMPL or REFUSED, SERVERFAILED, or another error. */
  datatype Verdict = Good | Unfit | ServerFailed | Wrong

  datatype Event =
    | Resolves
    | Replies(h: Handle, verdict: Verdict, more: bool)
    | TimesOut(h: Handle)
    | Cancels(h: Handle)
    | Probes(k: nat)
    | Probed(k: nat, canceled: bool, goodReply: bool)
    | Writes(k: nat)
    | Adds(k: nat)
    | Limits(limit: int)

  /** The reply may lead to the next name of a search. */
  predicate Searches(verdict: Verdict, more: bool) { more && (verdict == Wrong || verdict == Unfit) }

  class Base {
    /** Every request that has been submitted and not finished. */
    var reqs: map<Handle, Request>
    /** req_heads: the lists of the inflight requests. */
    var heads: seq<seq<Handle>>
    var waiting: seq<Handle>
    var servers: map<nat, Nameserver>
    /** The circular list of the servers, from server_head on. */
    var ring: seq<nat>
    /** global_good_nameservers, global_requests_inflight, global_requests_waiting */
    var good: int
    var inflight: int
    var parked: int
    var maxInflight: int
    /** The replies scheduled for each handle, and the handles not yet given out. */
    var answers: multiset<Handle>
    var next: Handle

    const maxReissues: nat
    const maxRetransmits: nat
    const maxTimedout: nat
    /** How the random draw of an identifier falls once so many handles have been given out; when that one
        is in use or 0xffff, others are drawn. */
    const dice: nat -> nat

    /** evdns_base_new */
    constructor (reissues: nat, retransmits: nat, timedout: nat, dice: nat -> nat)
      ensures this.dice == dice && waiting == [] && next == 0 && maxInflight == 64 && |heads| == 13
      ensures maxReissues == reissues && maxRetransmits == retransmits && maxTimedout == timedout
      ensures Valid() && Fair() && reqs == map[] && servers == map[] && NoRoom() && Unique(reqs) && Moving(reqs)
    {
      maxReissues, maxRetransmits, maxTimedout := reissues, retransmits, timedout;
      this.dice := dice;
      reqs, servers, ring, waiting := map[], map[], [], [];
      heads := seq(Heads(64), _ => []);
      good, inflight, parked, maxInflight := 0, 0, 0, 64;
      answers, next := multiset{}, 0;
      new;
      assert Flying(reqs) == {} && Parked(reqs) == {} && Up(servers) == {};
      forall b | 0 <= b < |heads| ensures FiledAt(reqs, heads, b) {
        assert heads[b] == [];
      }
    }

    ghost predicate Valid()
      reads this
    {
      && Filed(reqs, heads)
      && Listed(waiting, Parked(reqs))
      && Counted(reqs, servers)
      && Listed(ring, servers.Keys)
      && Totals(|Up(servers)|, |Flying(reqs)|, |Parked(reqs)|)
    }

    ghost predicate Totals(up: nat, flying: nat, wait: nat)
      reads this
    {
      good == up && inflight == flying && parked == wait && 1 <= maxInflight <= 65000
    }

    /** nameserver_pick: the next server that is up, or the next one if none is. */
    method NameserverPick() returns (k: Option<nat>)
      requires Valid()
      modifies this`ring
      ensures Valid()
      ensures k.None? <==> servers == map[]
      ensures k.Some? ==> k.value in servers && Picked(old(ring), servers, k.value)
      ensures k.Some? && good == 0 ==> ring == Turned(old(ring), 1) && k.value == ring[0]
      ensures k.Some? && good != 0 ==> servers[k.value].up
      ensures k.Some? && good != 0 ==> exists i :: PickedAt(old(ring), ring, servers, k.value, i)
    {
      NoneUp();
      hide Filed, Counted, Listed, Flying, Parked, Up, Turned;
      Ring();
      TurnedNone(ring);
      if ring == [] {
        return None;
      }
      if good == 0 {
        Advance();
        Ring();
        return Some(ring[0]);
      }
      ghost var i := 0;
      var startedAt := ring[0];
      while true
        invariant Valid() && i < |ring| && startedAt == old(ring)[0]
        invariant |ring| == |old(ring)| && ring == Turned(old(ring), i)
        invariant forall j :: 0 <= j < i ==> Down(servers, old(ring)[j])
        decreases |ring| - i
      {
        Ring();
        TurnedHead(old(ring), i);
        TurnedOnce(old(ring), i);
        if servers[ring[0]].up {
          k := Some(ring[0]);
          Advance();
          assert PickedAt(old(ring), ring, servers, k.value, i);
          assert PickedFrom(old(ring), servers, k.value, i);
          return;
        }
        Advance();
        i := i + 1;
        NotAllDown(old(ring), i);
        // So the case in the source where all the servers are down does not occur.
        assert ring[0] != startedAt;
      }
    }

    lemma {:induction false} NoneUp()
      requires Valid()
      ensures good == 0 <==> Up(servers) == {}
    {
    }

    lemma {:induction false} Ring()
      requires Valid()
      ensures ring == [] <==> servers == map[]
      ensures ring != [] ==> ring[0] in servers
    {
      ListedSize(ring, servers.Keys);
    }

    lemma {:induction false} NotAllDown(start: seq<nat>, i: nat)
      requires Valid() && good != 0 && 0 < i <= |start| && |ring| == |start|
      requires ring == Turned(start, i) && Listed(start, servers.Keys)
      requires forall j :: 0 <= j < i ==> Down(servers, start[j])
      ensures i < |start| && ring[0] != start[0]
    {
      NotRound(start, i, servers);
    }

    /** server_head = server_head->next */
    method Advance()
      requires Valid() && ring != []
      modifies this`ring
      ensures Valid() && ring == Turned(old(ring), 1)
    {
      ListedTurned(ring, servers.Keys);
      ring := ring[1..] + [ring[0]];
    }

    /** request_swap_ns */
    method SwapNs(h: Handle, k: Option<nat>)
      requires Valid() && h in Flying(reqs) && (k.Some? ==> k.value in servers)
      modifies this`reqs, this`servers
      ensures Valid() && SameServers(old(servers), servers)
      ensures reqs == if k.None? then old(reqs) else old(reqs)[h := old(reqs)[h].(ns := k)]
      ensures Carries(old(reqs), reqs)
    {
      hide Filed, Counted, Listed, Parked, Up;
      if k.Some? && reqs[h].ns != k {
        var j := reqs[h].ns.value;
        SwapSound(reqs, heads, servers, h, k.value);
        // The assertion in the source.
        assert j in servers && servers[j].inflight > 0;
        servers := Shifted(servers, j, k.value);
        reqs := reqs[h := reqs[h].(ns := k)];
      } else {
        assert k.Some? ==> reqs[h := reqs[h].(ns := k)] == reqs;
        CarriesSelf(reqs);
      }
    }

    /** One request in the walk of nameserver_failed: if it waits to go out to the server, it is moved. */
    method FailOne(k: nat, h: Handle)
      requires Valid() && h in Flying(reqs) && Down(servers, k) && good > 0
      modifies this`reqs, this`servers, this`ring
      ensures Valid() && SameServers(old(servers), servers)
      ensures MovedOff(old(reqs), reqs, k, servers)
      ensures h in Flying(reqs) && Gone(reqs[h], k)
    {
      if reqs[h].txCount == 0 && reqs[h].ns == Some(k) {
        var other := NameserverPick();
        assert Down(servers, k);
        SwapNs(h, other);
        MovedHere(old(reqs), h, reqs[h], k, servers);
      } else {
        MovedSelf(reqs, k, servers);
      }
    }

    /** The inner loop of nameserver_failed. */
    method FailList(k: nat, i: nat, ghost seen: set<Handle>) returns (ghost now: set<Handle>)
      requires Valid() && i < |heads| && Down(servers, k) && good > 0
      requires seen <= reqs.Keys && AllGone(reqs, seen, k)
      modifies this`reqs, this`servers, this`ring
      ensures Valid() && SameServers(old(servers), servers)
      ensures MovedOff(old(reqs), reqs, k, servers)
      ensures seen <= now <= reqs.Keys && Within(heads[i], now)
      ensures AllGone(reqs, now, k)
    {
      hide Filed, Counted, Listed, Flying, Parked, Up;
      now := seen;
      MovedSelf(reqs, k, servers);
      var l := heads[i];
      for j := 0 to |l|
        invariant Valid() && SameServers(old(servers), servers)
        invariant MovedOff(old(reqs), reqs, k, servers)
        invariant seen <= now <= reqs.Keys && AllGone(reqs, now, k)
        invariant forall c :: 0 <= c < j ==> l[c] in now
      {
        InList(reqs, heads, i, j);
        ghost var before := now;
        now := FailNext(k, l[j], before, old(reqs));
        forall c | 0 <= c < j + 1 ensures l[c] in now {
          assert c < j ==> l[c] in before;
        }
      }
    }

    method FailNext(k: nat, h: Handle, ghost seen: set<Handle>, ghost start: map<Handle, Request>)
      returns (ghost now: set<Handle>)
      requires Valid() && h in Flying(reqs) && Down(servers, k) && good > 0
      requires seen <= reqs.Keys && AllGone(reqs, seen, k) && MovedOff(start, reqs, k, servers)
      modifies this`reqs, this`servers, this`ring
      ensures Valid() && SameServers(old(servers), servers)
      ensures MovedOff(start, reqs, k, servers)
      ensures seen <= now && h in now && now <= reqs.Keys && AllGone(reqs, now, k)
    {
      FailOne(k, h);
      MovedOn(start, old(reqs), reqs, k, old(servers), servers);
      StayGone(old(reqs), reqs, k, servers, seen);
      now := seen + {h};
    }

    /** nameserver_failed: the requests that wait to go out to the server are given to others. */
    method NameserverFailed(k: nat)
      requires Valid() && k in servers
      modifies this`reqs, this`servers, this`ring, this`good
      ensures Valid()
      ensures SameServers(old(servers)[k := old(servers)[k].(up := false)], servers)
      ensures MovedOff(old(reqs), reqs, k, servers) && Carries(old(reqs), reqs)
      ensures good > 0 && old(servers[k].up) ==> AllGone(reqs, Flying(reqs), k)
      ensures !old(servers[k].up) ==> reqs == old(reqs) && servers == old(servers)
    {
      MovedSelf(reqs, k, servers);
      if !servers[k].up {
        assert servers[k := servers[k].(up := false)] == servers;
        MovedCarries(reqs, reqs, k, servers);
        return;
      }
      TakenDown(reqs, servers, k);
      good := good - 1;
      servers := servers[k := servers[k].(up := false)];
      if good > 0 {
        FailAll(k);
      }
      MovedCarries(old(reqs), reqs, k, servers);
    }

    /** The walk of nameserver_failed over the lists of the inflight requests. */
    method FailAll(k: nat)
      requires Valid() && Down(servers, k) && good > 0
      modifies this`reqs, this`servers, this`ring
      ensures Valid() && SameServers(old(servers), servers)
      ensures MovedOff(old(reqs), reqs, k, servers)
      ensures AllGone(reqs, Flying(reqs), k)
    {
      hide Filed, Counted, Listed, Flying, Parked, Up;
      ghost var seen: set<Handle> := {};
      MovedSelf(reqs, k, servers);
      var i := 0;
      while i < |heads|
        invariant 0 <= i <= |heads| && Valid() && SameServers(old(servers), servers)
        invariant MovedOff(old(reqs), reqs, k, servers)
        invariant seen <= reqs.Keys && AllGone(reqs, seen, k)
        invariant forall b :: 0 <= b < i ==> Within(heads[b], seen)
      {
        ghost var r, s := reqs, servers;
        seen := FailList(k, i, seen);
        MovedOn(old(reqs), r, reqs, k, s, servers);
        i := i + 1;
      }
      EveryOne(reqs, heads, seen);
    }

    method Note(h: Handle, r: Request)
      requires Valid() && h in Flying(reqs) && r.ns == reqs[h].ns && r.transId == reqs[h].transId
      modifies this`reqs
      ensures Valid() && reqs == old(reqs)[h := r]
    {
      NoteSound(reqs, heads, servers, h, r);
      reqs := reqs[h := r];
    }

    /** evdns_request_transmit, whatever sendto does. */
    method Transmit(h: Handle) returns (sent: Sent)
      requires Valid() && h in Flying(reqs)
      modifies this`reqs, this`servers, this`ring, this`good
      ensures Valid() && Carries(old(reqs), reqs) && Falls(old(servers), servers)
      ensures Tried(old(reqs), reqs, old(servers), servers, h, old(reqs[h].ns.value), sent)
    {
      assert Assigned(reqs[h], servers);
      CarriesOne(reqs, h, reqs[h].(transmitMe := true));
      hide Filed, Counted, Listed, Parked, Up, Carries, Tried;
      var k := reqs[h].ns.value;
      Note(h, reqs[h].(transmitMe := true));
      ghost var noted := reqs;
      sent := TransmitNoted(h, k);
      CarriesOn(old(reqs), noted, reqs);
      TriedNoted(old(reqs), reqs, old(servers), servers, h, k, sent);
    }

    /** The request is sent if the server's socket takes it. */
    method TransmitNoted(h: Handle, k: nat) returns (sent: Sent)
      requires Valid() && h in Flying(reqs) && reqs[h].transmitMe && reqs[h].ns == Some(k) && k in servers
      modifies this`reqs, this`servers, this`ring, this`good
      ensures Valid() && Carries(old(reqs), reqs) && Falls(old(servers), servers)
      ensures Tried(old(reqs), reqs, old(servers), servers, h, k, sent)
    {
      CarriesSelf(reqs);
      hide Filed, Counted, Listed, Parked, Up, Carries;
      assert reqs[h := reqs[h]] == reqs;
      if servers[k].choked {
        assert servers[k := servers[k].(choked := true)] == servers;
        return TryLater;
      }
      sent := *;
      if sent == TryLater {
        SetServer(k, servers[k].(choked := true));
        return;
      }
      hide Tried;
      TransmitGoesOn(h, k, sent);
    }

    /** The packet went out, or the server has failed and the timer will send it again. */
    method TransmitGoesOn(h: Handle, k: nat, sent: Sent)
      requires Valid() && h in Flying(reqs) && reqs[h].ns == Some(k) && k in servers && sent != TryLater
      requires !servers[k].choked
      modifies this`reqs, this`servers, this`ring, this`good
      ensures Valid() && Carries(old(reqs), reqs) && Falls(old(servers), servers)
      ensures Tried(old(reqs), reqs, old(servers), servers, h, k, sent)
    {
      hide Filed, Counted, Listed, Parked, Up, Tried;
      CarriesSelf(reqs);
      if sent == Broken {
        NameserverFailed(k);
        assert MovedOne(old(reqs)[h], reqs[h], k, servers);
        CarriesSets(old(reqs), reqs);
      }
      ghost var r := reqs;
      var t := reqs[h].(txCount := reqs[h].txCount + 1, transmitMe := false);
      CarriesOne(reqs, h, t);
      Note(h, t);
      CarriesOn(old(reqs), r, reqs);
      hide Carries, MovedOff;
      TriedOn(old(reqs), r, reqs, old(servers), servers, h, k, sent);
    }

    /** evdns_transmit. If no server fails meanwhile, a request that still has to go out after it waits for a
        socket that takes no more. */
    method TransmitAll()
      requires Valid()
      modifies this`reqs, this`servers, this`ring, this`good
      ensures Valid() && Carries(old(reqs), reqs) && Falls(old(servers), servers)
      ensures NoneFell(old(servers), servers) ==> Stuck(reqs, servers, Flying(reqs))
      ensures NoneFell(old(servers), servers) ==> ChokedFor(reqs, old(servers), servers)
    {
      hide Filed, Counted, Listed, Flying, Parked, Up, Carries, NoneFell, Stuck, ChokedFor;
      CarriesSelf(reqs);
      NoneFellSelf(servers);
      ghost var seen: set<Handle> := {};
      NoneStuck(reqs, servers);
      NoneChoked(reqs, servers);
      for i := 0 to |heads|
        invariant Valid() && Carries(old(reqs), reqs) && Falls(old(servers), servers)
        invariant NoneFell(old(servers), servers) ==>
                    Stuck(reqs, servers, seen) && ChokedFor(reqs, old(servers), servers)
        invariant forall b :: 0 <= b < i ==> Within(heads[b], seen)
      {
        ghost var before := seen;
        seen := TransmitList(i, old(reqs), old(servers), before);
        forall b | 0 <= b < i + 1 ensures Within(heads[b], seen) {
          if b < i { assert Within(heads[b], before); }
        }
      }
      EveryOne(reqs, heads, seen);
      FewerStuck(reqs, servers, seen, Flying(reqs));
    }

    method TransmitList(i: nat, ghost start: map<Handle, Request>, ghost servers0: map<nat, Nameserver>,
                        ghost seen: set<Handle>)
      returns (ghost now: set<Handle>)
      requires Valid() && i < |heads| && Carries(start, reqs) && Falls(servers0, servers)
      requires NoneFell(servers0, servers) ==> Stuck(reqs, servers, seen) && ChokedFor(reqs, servers0, servers)
      modifies this`reqs, this`servers, this`ring, this`good
      ensures Valid() && Carries(start, reqs) && Falls(servers0, servers)
      ensures NoneFell(servers0, servers) ==> Stuck(reqs, servers, now) && ChokedFor(reqs, servers0, servers)
      ensures seen <= now && Within(heads[i], now)
    {
      hide Filed, Counted, Listed, Flying, Parked, Up, Carries, NoneFell, Stuck, Falls, ChokedFor;
      now := seen;
      for j := 0 to |heads[i]|
        invariant Valid() && Carries(start, reqs) && Falls(servers0, servers)
        invariant NoneFell(servers0, servers) ==> Stuck(reqs, servers, now) && ChokedFor(reqs, servers0, servers)
        invariant seen <= now && forall c :: 0 <= c < j ==> heads[i][c] in now
      {
        InList(reqs, heads, i, j);
        TransmitMarked(heads[i][j], start, servers0, now);
        now := now + {heads[i][j]};
      }
    }

    method TransmitMarked(h: Handle, ghost start: map<Handle, Request>, ghost servers0: map<nat, Nameserver>,
                          ghost seen: set<Handle>)
      requires Valid() && h in Flying(reqs) && Carries(start, reqs) && Falls(servers0, servers)
      requires NoneFell(servers0, servers) ==> Stuck(reqs, servers, seen) && ChokedFor(reqs, servers0, servers)
      modifies this`reqs, this`servers, this`ring, this`good
      ensures Valid() && Carries(start, reqs) && Falls(servers0, servers)
      ensures NoneFell(servers0, servers) ==> Stuck(reqs, servers, seen + {h}) && ChokedFor(reqs, servers0, servers)
    {
      hide Filed, Counted, Listed, Parked, Up, Carries, NoneFell, Stuck, Falls, Tried, ChokedFor;
      if reqs[h].transmitMe {
        ghost var r, s := reqs, servers;
        var sent := Transmit(h);
        CarriesOn(start, r, reqs);
        FallsOn(servers0, s, servers);
        if NoneFell(servers0, servers) {
          TriedStuck(r, reqs, s, servers, h, r[h].ns.value, sent, seen);
          TriedChokes(r, reqs, servers0, s, servers, h, r[h].ns.value, sent);
        }
      } else if NoneFell(servers0, servers) {
        OneMoreStuck(reqs, servers, seen, h);
      }
    }

    /** request_find_from_trans_id: only the list of the identifier has to be searched. */
    method FindFromTransId(id: nat) returns (found: Option<Handle>)
      requires Valid()
      ensures found.Some? ==> found.value in Flying(reqs) && reqs[found.value].transId == id
      ensures found.None? ==> !InUse(reqs, id)
    {
      var b := id % |heads|;
      assert FiledAt(reqs, heads, b);
      for j := 0 to |heads[b]|
        invariant forall c :: 0 <= c < j ==> reqs[heads[b][c]].transId != id
      {
        if reqs[heads[b][j]].transId == id {
          return Some(heads[b][j]);
        }
      }
      NotInList(reqs, heads, b, id);
      return None;
    }

    /** transaction_id_pick: draws until the identifier is free. */
    method TransactionIdPick() returns (id: nat)
      requires Valid() && inflight < NO_ID
      ensures id < NO_ID && !InUse(reqs, id)
      ensures CanDraw(reqs, dice(next)) ==> id == dice(next)
    {
      FreeId(reqs);
      if dice(next) < NO_ID && !InUse(reqs, dice(next)) {
        return dice(next);
      }
      id :| 0 <= id < NO_ID && !InUse(reqs, id);
    }

    /** evdns_request_insert into the list of the identifier, and the counters. */
    method Lift(h: Handle, r: Request)
      requires Valid() && h !in reqs && Assigned(r, servers)
      modifies this`reqs, this`heads, this`servers, this`inflight
      ensures Valid() && reqs == old(reqs)[h := r] && inflight == old(inflight) + 1
      ensures Falls(old(servers), servers)
      ensures Unique(old(reqs)) && !InUse(old(reqs), r.transId) ==> Unique(reqs)
    {
      LiftNew(reqs, heads, servers, h, r, waiting);
      heads, inflight := Inserted(heads, r, h), inflight + 1;
      servers, reqs := Busier(servers, r.ns.value, 1), reqs[h := r];
    }

    /** The first request that waits gets a server and an identifier, and flies. */
    method Promote(h: Handle, r: Request)
      requires Valid() && waiting != [] && h == waiting[0] && Assigned(r, servers)
      modifies this`reqs, this`heads, this`servers, this`inflight, this`waiting, this`parked
      ensures Valid() && inflight == old(inflight) + 1 && waiting == old(waiting)[1..] && parked == old(parked) - 1
      ensures Falls(old(servers), servers) && reqs == old(reqs)[h := r] && Pumped(old(reqs), reqs)
      ensures h in Flying(reqs)
      ensures Unique(old(reqs)) && !InUse(old(reqs), r.transId) ==> Unique(reqs)
    {
      hide Filed, Counted, Listed, Unique, Moving, Pumped, Flying, Parked, Up;
      LiftParked(reqs, heads, servers, h, r, waiting);
      waiting, parked, heads, inflight, servers, reqs :=
        waiting[1..], parked - 1, Inserted(heads, r, h), inflight + 1, Busier(servers, r.ns.value, 1), reqs[h := r];
    }

    /** No request waits while it could fly. */
    predicate NoRoom()
      reads this
    {
      waiting == [] || inflight >= maxInflight || servers == map[]
    }

    lemma {:induction false} Waiting()
      requires Valid()
      ensures parked == |waiting| && forall h <- waiting :: h in reqs && reqs[h].ns.None?
      ensures forall h :: h in reqs && reqs[h].ns.None? ==> h in waiting
    {
      ListedSize(waiting, Parked(reqs));
      forall h | h in reqs && reqs[h].ns.None? ensures h in waiting {
        assert h in Parked(reqs) && At(waiting, h);
      }
    }

    /** evdns_requests_pump_waiting_queue: requests fly in the order in which they came to wait. */
    method Pump()
      requires Valid()
      modifies this`reqs, this`heads, this`servers, this`ring, this`good, this`inflight, this`waiting, this`parked
      ensures Valid() && NoRoom() && Falls(old(servers), servers)
      ensures Pumped(old(reqs), reqs) && (Unique(old(reqs)) ==> Unique(reqs))
      ensures Moving(old(reqs)) ==> Moving(reqs)
      ensures exists n :: 0 <= n <= |old(waiting)| && waiting == old(waiting)[n..] && inflight == old(inflight) + n
      ensures inflight > old(inflight) ==> inflight <= maxInflight
      ensures waiting == old(waiting) ==> servers == old(servers)
      ensures waiting != old(waiting) && NoneFell(old(servers), servers) ==> Stuck(reqs, servers, Flying(reqs))
      ensures old(NoRoom()) ==> reqs == old(reqs) && waiting == old(waiting) && inflight == old(inflight)
      ensures old(!NoRoom() && CanDraw(reqs, dice(next))) ==> FliesWith(reqs, old(waiting)[0], dice(next))
    {
      hide Filed, Counted, Listed, Unique, Moving, Pumped, Flying, Parked, Up, InUse, Falls, NoneFell, Stuck;
      ghost var draws := CanDraw(reqs, dice(next));
      FallsSelf(servers);
      PumpedSelf(reqs);
      ghost var n := 0;
      while inflight < maxInflight && parked > 0
        invariant Valid() && Falls(old(servers), servers)
        invariant Pumped(old(reqs), reqs) && (Unique(old(reqs)) ==> Unique(reqs))
        invariant Moving(old(reqs)) ==> Moving(reqs)
        invariant 0 <= n <= |old(waiting)| && waiting == old(waiting)[n..] && inflight == old(inflight) + n
        invariant n > 0 ==> inflight <= maxInflight && servers != map[]
        invariant old(NoRoom()) ==> reqs == old(reqs) && n == 0
        invariant n == 0 ==> reqs == old(reqs) && servers == old(servers)
        invariant n > 0 && NoneFell(old(servers), servers) ==> Stuck(reqs, servers, Flying(reqs))
        invariant n > 0 && draws ==> FliesWith(reqs, old(waiting)[0], dice(next))
        decreases parked
      {
        Waiting();
        // The assertion in the source: the list is not empty when the counter says so.
        assert waiting != [];
        var k := NameserverPick();
        if k.None? {
          return;
        }
        ghost var s := servers;
        PumpOne(k.value, old(reqs));
        FallsOn(old(servers), s, servers);
        n := n + 1;
      }
      Waiting();
    }

    /** One round of the pump, with the server that was picked. */
    method PumpOne(k: nat, ghost start: map<Handle, Request>)
      requires Valid() && waiting != [] && k in servers && inflight < maxInflight && Pumped(start, reqs)
      modifies this`reqs, this`heads, this`servers, this`ring, this`good, this`inflight, this`waiting, this`parked
      ensures Valid() && waiting == old(waiting)[1..] && inflight == old(inflight) + 1 && parked == old(parked) - 1
      ensures Falls(old(servers), servers)
      ensures NoneFell(old(servers), servers) ==> Stuck(reqs, servers, Flying(reqs))
      ensures Pumped(start, reqs) && (Unique(old(reqs)) ==> Unique(reqs))
      ensures Moving(old(reqs)) ==> Moving(reqs)
      ensures old(CanDraw(reqs, dice(next))) ==> FliesWith(reqs, old(waiting)[0], dice(next))
      ensures forall x: Handle :: FliesWith(old(reqs), x, old(dice(next))) ==> FliesWith(reqs, x, old(dice(next)))
    {
      hide Filed, Counted, Listed, Unique, Moving, Pumped, Flying, Parked, Up, InUse, Falls, NoneFell, Stuck;
      ghost var was := reqs;
      PumpedSelf(reqs);
      Waiting();
      var h := waiting[0];
      var id := TransactionIdPick();
      var r := reqs[h].(ns := Some(k), transId := id);
      Promote(h, r);
      PumpedOn(start, old(reqs), reqs);
      ghost var promoted, s := reqs, servers;
      Send(h, start);
      FallsOn(old(servers), s, servers);
      if Moving(was) { MovingLifted(was, h, r, reqs); }
      forall x: Handle | x in promoted && promoted[x].ns.Some? ensures SameFlight(promoted, reqs, x) {
        PumpedKeeps(promoted, reqs, x);
      }
      assert SameFlight(promoted, reqs, h);
      forall x: Handle | FliesWith(old(reqs), x, dice(next)) ensures FliesWith(reqs, x, dice(next)) {
        assert x != h;
        assert SameFlight(promoted, reqs, x);
      }
    }

    /** The new request is sent, and with it every other one that has to go out. */
    method Send(h: Handle, ghost start: map<Handle, Request>)
      requires Valid() && h in Flying(reqs) && Pumped(start, reqs)
      modifies this`reqs, this`servers, this`ring, this`good
      ensures Valid() && Falls(old(servers), servers)
      ensures NoneFell(old(servers), servers) ==> Stuck(reqs, servers, Flying(reqs))
      ensures Pumped(start, reqs) && Pumped(old(reqs), reqs) && (Unique(old(reqs)) ==> Unique(reqs))
      ensures Carries(old(reqs), reqs) && Active(reqs[h])
    {
      var sent := Transmit(h);
      ghost var r, s := reqs, servers;
      CarriesPumped(old(reqs), r);
      TransmitAll();
      FallsOn(old(servers), s, servers);
      CarriesPumped(r, reqs);
      CarriesOn(old(reqs), r, reqs);
      assert SameRequest(r[h], reqs[h]);
      PumpedOn(old(reqs), r, reqs);
      PumpedOn(start, old(reqs), r);
      PumpedOn(start, r, reqs);
    }

    /** What the user of a handle is owed: the reply that is scheduled, or the request that will bring it. */
    ghost function Due(h: Handle): nat
      reads this
    {
      answers[h] + if h in reqs then 1 else 0
    }

    /** reply_schedule_callback */
    method Answer(h: Handle)
      requires Valid()
      modifies this`answers
      ensures Valid() && answers == old(answers) + multiset{h}
    {
      answers := answers + multiset{h};
    }

    /** An inflight request is taken from its list, and from the counters. */
    method Land(h: Handle)
      requires Valid() && h in Flying(reqs)
      modifies this`reqs, this`heads, this`servers, this`inflight
      ensures Valid() && reqs == old(reqs) - {h} && inflight == old(inflight) - 1
      ensures Falls(old(servers), servers) && NoneFell(old(servers), servers)
      ensures Unique(old(reqs)) ==> Unique(reqs)
      ensures Moving(old(reqs)) ==> Moving(reqs)
    {
      InItsList(reqs, heads, h);
      hide Filed, Counted, Listed, Unique, Moving, Parked, Up;
      var l := heads[Slot(reqs[h], |heads|)];
      var at :| 0 <= at < |l| && l[at] == h;
      LandAt(h, reqs[h], at);
    }

    method LandAt(h: Handle, r: Request, at: nat)
      requires Valid() && h in Flying(reqs) && reqs[h] == r
      requires at < |heads[Slot(r, |heads|)]| && heads[Slot(r, |heads|)][at] == h
      modifies this`reqs, this`heads, this`servers, this`inflight
      ensures Valid() && reqs == old(reqs) - {h} && inflight == old(inflight) - 1
      ensures Falls(old(servers), servers) && NoneFell(old(servers), servers)
      ensures Unique(old(reqs)) ==> Unique(reqs)
      ensures Moving(old(reqs)) ==> Moving(reqs)
    {
      hide Filed, Counted, Listed, Unique, Moving, Flying, Parked, Up;
      LandDone(reqs, heads, servers, h, at, waiting);
      heads, inflight := Removed(heads, r, at), inflight - 1;
      servers, reqs := Busier(servers, r.ns.value, -1), reqs - {h};
    }

    /** A request that waits is taken from the list, and from the counter. */
    method Unpark(h: Handle)
      requires Valid() && h in Parked(reqs)
      modifies this`reqs, this`waiting, this`parked
      ensures Valid() && reqs == old(reqs) - {h}
      ensures exists at ::
                0 <= at < |old(waiting)| && old(waiting)[at] == h &&
                waiting == old(waiting)[..at] + old(waiting)[at + 1..]
      ensures Unique(old(reqs)) ==> Unique(reqs)
      ensures Moving(old(reqs)) ==> Moving(reqs)
    {
      assert At(waiting, h);
      var at :| 0 <= at < |waiting| && waiting[at] == h;
      UnparkAt(h, at);
    }

    method UnparkAt(h: Handle, at: nat)
      requires Valid() && at < |waiting| && waiting[at] == h
      modifies this`reqs, this`waiting, this`parked
      ensures Valid() && reqs == old(reqs) - {h} && waiting == old(waiting)[..at] + old(waiting)[at + 1..]
      ensures Unique(old(reqs)) ==> Unique(reqs)
      ensures Moving(old(reqs)) ==> Moving(reqs)
    {
      hide Filed, Counted, Listed, Unique, Moving, Flying, Parked, Up;
      UnparkDone(reqs, heads, servers, h, at, waiting);
      waiting, parked, reqs := waiting[..at] + waiting[at + 1..], parked - 1, reqs - {h};
    }

    /** request_finished */
    method Finish(h: Handle, wasInflight: bool)
      requires Valid() && h in reqs && (wasInflight <==> reqs[h].ns.Some?)
      modifies this`reqs, this`heads, this`servers, this`ring, this`good, this`inflight, this`waiting, this`parked
      ensures Valid() && NoRoom() && Falls(old(servers), servers)
      ensures Pumped(old(reqs) - {h}, reqs) && (Unique(old(reqs)) ==> Unique(reqs))
      ensures Moving(old(reqs)) ==> Moving(reqs)
      ensures reqs.Keys == old(reqs).Keys - {h}
      ensures waiting == old(waiting) || |waiting| < |old(waiting)|
      ensures wasInflight && waiting == old(waiting) ==> NoneFell(old(servers), servers)
      ensures wasInflight ==> exists n :: 0 <= n <= |old(waiting)| && waiting == old(waiting)[n..] &&
                                          inflight == old(inflight) - 1 + n && (n > 0 ==> inflight <= maxInflight)
      ensures wasInflight && (old(inflight) > maxInflight || old(waiting) == []) ==> reqs == old(reqs) - {h}
      ensures wasInflight && old(!NoRoom() && CanDraw(reqs - {h}, dice(next))) ==>
                FliesWith(reqs, old(waiting)[0], dice(next))
    {
      assert if wasInflight then h in Flying(reqs) else h in Parked(reqs);
      hide Filed, Counted, Listed, Unique, Moving, Flying, Parked, Up, FliesWith, CanDraw, InUse, NoneFell, Pumped,
           Falls;
      if wasInflight {
        FinishInflight(h);
      } else {
        Unpark(h);
        Pump();
      }
    }

    method FinishInflight(h: Handle)
      requires Valid() && h in Flying(reqs)
      modifies this`reqs, this`heads, this`servers, this`ring, this`good, this`inflight, this`waiting, this`parked
      ensures Valid() && NoRoom() && Falls(old(servers), servers)
      ensures Pumped(old(reqs) - {h}, reqs) && (Unique(old(reqs)) ==> Unique(reqs))
      ensures Moving(old(reqs)) ==> Moving(reqs)
      ensures reqs.Keys == old(reqs).Keys - {h}
      ensures waiting == old(waiting) ==> NoneFell(old(servers), servers)
      ensures exists n :: 0 <= n <= |old(waiting)| && waiting == old(waiting)[n..] &&
                          inflight == old(inflight) - 1 + n && (n > 0 ==> inflight <= maxInflight)
      ensures old(inflight) > maxInflight || old(waiting) == [] ==> reqs == old(reqs) - {h}
      ensures old(!NoRoom() && CanDraw(reqs - {h}, dice(next))) ==> FliesWith(reqs, old(waiting)[0], dice(next))
    {
      hide Filed, Counted, Listed, Unique, Moving, Flying, Parked, Up, FliesWith, CanDraw, InUse, NoneFell, Falls;
      Land(h);
      ghost var s := servers;
      Pump();
      FallsOn(old(servers), s, servers);
    }

    /** evdns_cancel_request */
    method CancelRequest(h: Handle)
      requires Valid()
      modifies this`reqs, this`heads, this`servers, this`ring, this`good, this`inflight, this`waiting, this`parked,
               this`answers
      ensures Valid() && Falls(old(servers), servers)
      ensures h !in old(reqs) || old(answers)[h] > 0 ==> reqs == old(reqs) && answers == old(answers)
      ensures h in old(reqs) && old(answers)[h] == 0 ==> NoRoom() && answers == old(answers) + multiset{h}
      ensures h in old(reqs) && old(answers)[h] == 0 ==> Pumped(old(reqs) - {h}, reqs)
      ensures old(NoRoom()) ==> NoRoom()
      ensures waiting == old(waiting) || |waiting| < |old(waiting)|
      ensures Unique(old(reqs)) ==> Unique(reqs)
      ensures Moving(old(reqs)) ==> Moving(reqs)
      ensures forall x: Handle :: Due(x) == old(Due(x))
    {
      hide Filed, Counted, Listed, Unique, Moving, Flying, Parked, Up;
      if h !in reqs || answers[h] > 0 {
        return;
      }
      Answer(h);
      Finish(h, reqs[h].ns.Some?);
    }

    /** nameserver_up: a probe that is still out is canceled. */
    method NameserverUp(k: nat)
      requires Valid() && k in servers
      modifies this`reqs, this`heads, this`servers, this`ring, this`good, this`inflight, this`waiting, this`parked,
               this`answers
      ensures Valid() && servers.Keys == old(servers.Keys) && servers[k].up &&
              (waiting == old(waiting) || |waiting| < |old(waiting)|)
      ensures old(NoRoom()) ==> NoRoom()
      ensures Unique(old(reqs)) ==> Unique(reqs)
      ensures Moving(old(reqs)) ==> Moving(reqs)
      ensures forall x: Handle :: Due(x) == old(Due(x))
      ensures old(servers[k].up) ==> servers == old(servers) && reqs == old(reqs) && answers == old(answers)
      ensures !old(servers[k].up) ==> servers[k].probe == None && servers[k].timedout == 0
      ensures forall p ::
                !old(servers[k].up) && old(servers[k].probe) == Some(p) && p in old(reqs) && old(answers)[p] == 0 ==>
                p !in reqs && answers == old(answers) + multiset{p}
      ensures forall x <- old(reqs) ::
                old(servers[k].probe) == Some(x) || (x in reqs && PumpedOne(old(reqs)[x], reqs[x]))
    {
      hide Filed, Counted, Listed, Unique, Moving, Flying, Parked, Up;
      if servers[k].up {
        return;
      }
      if servers[k].probe.Some? {
        CancelRequest(servers[k].probe.value);
        SetServer(k, servers[k].(probe := None));
      }
      MarkUp(k);
    }

    /** A change of a server that is neither its state nor its counter. */
    method SetServer(k: nat, server: Nameserver)
      requires Valid() && k in servers && server.up == servers[k].up && server.inflight == servers[k].inflight
      modifies this`servers
      ensures Valid() && servers == old(servers)[k := server]
    {
      ServerSound(reqs, servers, k, server);
      servers := servers[k := server];
    }

    method MarkUp(k: nat)
      requires Valid() && k in servers && !servers[k].up
      modifies this`servers, this`good
      ensures Valid() && good == old(good) + 1
      ensures servers == old(servers)[k := old(servers)[k].(up := true, timedout := 0)]
    {
      TakenUp(reqs, servers, k);
      servers := servers[k := servers[k].(up := true, timedout := 0)];
      good := good + 1;
    }

    /** Every handle that has been given out is owed one reply, and gets no more. */
    ghost predicate Fair()
      reads this
    {
      forall h: Handle :: Due(h) == if h < next then 1 else 0
    }

    /** request_new: a request that can fly has a server and an identifier. */
    method RequestNew() returns (r: Request)
      requires Valid()
      modifies this`ring
      ensures Valid() && r.txCount == 0 && r.reissues == 0 && !r.transmitMe
      ensures r.ns.Some? <==> inflight < maxInflight && servers != map[]
      ensures r.ns.Some? ==> Assigned(r, servers) && !InUse(reqs, r.transId)
      ensures r.ns.Some? && CanDraw(reqs, dice(next)) ==> r.transId == dice(next)
    {
      var issuing := inflight < maxInflight;
      var id, k := NO_ID, None;
      if issuing {
        id := TransactionIdPick();
        k := NameserverPick();
      }
      r := Request(k, id, 0, 0, false);
    }

    /** request_submit */
    method Submit(h: Handle, r: Request)
      requires Valid() && h !in reqs && (r.ns.Some? ==> Assigned(r, servers))
      modifies this`reqs, this`heads, this`servers, this`ring, this`good, this`inflight, this`waiting, this`parked
      ensures Valid() && Falls(old(servers), servers)
      ensures Pumped(old(reqs)[h := r], reqs) && reqs.Keys == old(reqs).Keys + {h}
      ensures r.ns.Some? ==> inflight == old(inflight) + 1 && waiting == old(waiting)
      ensures r.ns.Some? ==> reqs[h].txCount == r.txCount + if reqs[h].transmitMe then 0 else 1
      ensures reqs[h].reissues == r.reissues && reqs[h].transId == r.transId && (reqs[h].ns.Some? <==> r.ns.Some?)
      ensures r.ns.Some? && !old(servers[r.ns.value].up) ==> reqs[h].ns == r.ns
      ensures r.ns.None? ==> inflight == old(inflight) && waiting == old(waiting) + [h] && reqs == old(reqs)[h := r]
      ensures Unique(old(reqs)) && (r.ns.Some? ==> !InUse(old(reqs), r.transId)) ==> Unique(reqs)
      ensures Moving(old(reqs)) ==> Moving(reqs)
    {
      hide Filed, Counted, Listed, Unique, Moving, Up;
      if r.ns.Some? {
        Lift(h, r);
        ghost var lifted := reqs;
        var sent := Transmit(h);
        CarriesPumped(lifted, reqs);
        if Moving(old(reqs)) { MovingLifted(old(reqs), h, r, reqs); }
      } else {
        ParkDone(reqs, heads, servers, h, r, waiting);
        waiting, parked, reqs := waiting + [h], parked + 1, reqs[h := r];
        PumpedSelf(reqs);
      }
    }

    /** evdns_base_resolve_ipv4 and its kin. */
    method Resolve() returns (h: Handle)
      requires Valid() && Fair()
      modifies this`reqs, this`heads, this`servers, this`ring, this`good, this`inflight, this`waiting, this`parked,
               this`next
      ensures Valid() && Fair() && h == old(next) && h in reqs && next == h + 1 && h !in old(reqs)
      ensures old(NoRoom()) ==> NoRoom()
      ensures Unique(old(reqs)) ==> Unique(reqs)
      ensures Moving(old(reqs)) ==> Moving(reqs)
      ensures servers.Keys == old(servers.Keys) && reqs.Keys == old(reqs).Keys + {h}
      ensures reqs[h].ns.Some? <==> old(inflight) < maxInflight && old(servers) != map[]
      ensures reqs[h].ns.Some? ==> inflight == old(inflight) + 1 && waiting == old(waiting)
      ensures reqs[h].ns.Some? ==> reqs[h].txCount == 1 || reqs[h].transmitMe
      ensures reqs[h].ns.Some? && CanDraw(old(reqs), dice(next)) ==> reqs[h].transId == dice(next)
      ensures reqs[h].ns.None? ==> inflight == old(inflight) && waiting == old(waiting) + [h]
      ensures reqs[h].ns.None? ==> reqs == old(reqs)[h := reqs[h]]
    {
      hide Filed, Counted, Listed, Unique, Moving, Up, Pumped, Flying, Parked, InUse;
      h := next;
      assert Due(h) == 0;
      next := next + 1;
      var r := RequestNew();
      Submit(h, r);
      if r.ns.Some? {
        PumpedKeeps(old(reqs)[h := r], reqs, h);
      }
      forall x: Handle ensures Due(x) == if x < next then 1 else 0 {
        assert old(Due(x)) == if x < old(next) then 1 else 0;
      }
    }

    /** search_try_next, when there is another name to try: the handle gets a new request. */
    method SearchTryNext(h: Handle)
      requires Valid() && h in Flying(reqs)
      modifies this`reqs, this`heads, this`servers, this`ring, this`good, this`inflight, this`waiting, this`parked
      ensures Valid() && h in reqs && reqs.Keys == old(reqs).Keys && Falls(old(servers), servers)
      ensures Renewed(old(reqs), reqs, h) && (reqs[h].ns.Some? <==> old(inflight) < maxInflight)
      ensures old(NoRoom()) ==> (NoRoom() <==> !(old(inflight) == old(maxInflight) && old(waiting) == []))
      ensures old(NoRoom()) && Unique(old(reqs)) ==> Unique(reqs)
      ensures Moving(old(reqs)) ==> Moving(reqs)
      ensures old(!NoRoom() && CanDraw(reqs, dice(next))) ==> !Unique(reqs)
    {
      assert Assigned(reqs[h], servers);
      hide Filed, Counted, Listed, Unique, Moving, Up, Parked, Flying, InUse, CanDraw;
      var r := RequestNew();
      LessInUse(reqs, h, r.transId);
      LessInUse(reqs, h, dice(next));
      ReplaceRequest(h, r);
      NotItsOwn(old(reqs), h, r.transId);
    }

    method ReplaceRequest(h: Handle, r: Request)
      requires Valid() && h in reqs && reqs[h].ns.Some? && servers != map[]
      requires r.ns.Some? <==> inflight < maxInflight
      requires r.ns.Some? ==> Assigned(r, servers) && !InUse(reqs - {h}, r.transId)
      modifies this`reqs, this`heads, this`servers, this`ring, this`good, this`inflight, this`waiting, this`parked
      ensures Valid() && h in reqs && reqs.Keys == old(reqs).Keys && Falls(old(servers), servers)
      ensures reqs[h].txCount == r.txCount + if r.ns.None? || reqs[h].transmitMe then 0 else 1
      ensures reqs[h].reissues == r.reissues && reqs[h].transId == r.transId && (reqs[h].ns.Some? <==> r.ns.Some?)
      ensures old(NoRoom()) ==> (NoRoom() <==> !(old(inflight) == old(maxInflight) && old(waiting) == []))
      ensures old(NoRoom()) && Unique(old(reqs)) ==> Unique(reqs)
      ensures Moving(old(reqs)) ==> Moving(reqs)
      ensures old(!NoRoom() && CanDraw(reqs - {h}, dice(next))) && r.transId == dice(next) ==> !Unique(reqs)
    {
      hide Filed, Counted, Listed, Unique, Moving, Up, Pumped, Flying, Parked, InUse;
      Waiting();
      ghost var w, i := waiting, inflight;
      ghost var collides := !NoRoom() && CanDraw(reqs - {h}, dice(next)) && r.transId == dice(next);
      Finish(h, true);
      ghost var n :| 0 <= n <= |w| && waiting == w[n..] && inflight == i - 1 + n && (n > 0 ==> inflight <= maxInflight);
      assert r.ns.None? && w == [] && i == maxInflight ==> inflight == maxInflight - 1;
      ghost var landed := reqs[h := r];
      Submit(h, r);
      if collides {
        PumpedKeeps(landed, reqs, w[0]);
        PumpedKeeps(landed, reqs, h);
        Collided(reqs, w[0], h);
      }
    }

    /** request_reissue: with another server, if there is one to be had. */
    method RequestReissue(h: Handle) returns (reissued: bool)
      requires Valid() && h in Flying(reqs)
      modifies this`reqs, this`servers, this`ring
      ensures Valid() && Carries(old(reqs), reqs) && SameServers(old(servers), servers)
      ensures h in Flying(reqs) && (reissued <==> reqs[h].ns != old(reqs[h].ns))
      ensures reissued ==> reqs[h].reissues == old(reqs[h].reissues) + 1 && reqs[h].txCount == 0 && reqs[h].transmitMe
      ensures Picked(old(ring), old(servers), reqs[h].ns.value)
    {
      var lastNs := reqs[h].ns;
      var k := NameserverPick();
      SwapNs(h, k);
      if reqs[h].ns == lastNs {
        return false;
      }
      ghost var swapped := reqs;
      var r := reqs[h].(reissues := reqs[h].reissues + 1, txCount := 0, transmitMe := true);
      Note(h, r);
      CarriesOne(swapped, h, r);
      CarriesOn(old(reqs), swapped, reqs);
      return true;
    }

    /** evdns_request_timeout_callback. What became of the packet, if one was to be sent; the server that was
        picked for it, and the one whose timeout is counted. */
    method RequestTimeout(h: Handle) returns (sent: Option<Sent>, ghost k: nat, ghost j: nat)
      requires Valid() && h in Flying(reqs)
      modifies this`reqs, this`heads, this`servers, this`ring, this`good, this`inflight, this`waiting, this`parked,
               this`answers
      ensures Valid() && servers.Keys == old(servers.Keys)
      ensures reqs.Keys == if old(reqs[h].txCount) >= maxRetransmits then old(reqs).Keys - {h} else old(reqs).Keys
      ensures answers == if old(reqs[h].txCount) >= maxRetransmits then old(answers) + multiset{h} else old(answers)
      ensures sent.None? <==> old(reqs[h].txCount) >= maxRetransmits
      ensures sent.None? ==> k == old(reqs[h].ns.value) && Down(servers, k)
      ensures sent.Some? ==>
                Retransmitted(old(reqs), reqs, old(servers), servers, old(ring), h, k, j, sent.value, maxTimedout)
      ensures old(NoRoom()) ==> NoRoom()
      ensures Unique(old(reqs)) ==> Unique(reqs)
      ensures Moving(old(reqs)) ==> Moving(reqs)
    {
      assert Assigned(reqs[h], servers);
      if reqs[h].txCount >= maxRetransmits {
        sent, k, j := None, reqs[h].ns.value, reqs[h].ns.value;
        GiveUp(h, reqs[h].ns.value);
      } else {
        var s;
        s, k, j := Retransmit(h);
        sent := Some(s);
      }
    }

    method GiveUp(h: Handle, k: nat)
      requires Valid() && h in reqs && reqs[h].ns.Some? && k in servers
      modifies this`reqs, this`heads, this`servers, this`ring, this`good, this`inflight, this`waiting, this`parked,
               this`answers
      ensures Valid() && servers.Keys == old(servers.Keys) && Down(servers, k)
      ensures reqs.Keys == old(reqs).Keys - {h} && answers == old(answers) + multiset{h}
      ensures NoRoom()
      ensures Unique(old(reqs)) ==> Unique(reqs)
      ensures Moving(old(reqs)) ==> Moving(reqs)
    {
      hide Filed, Counted, Listed, Unique, Moving, Up, Flying, Parked;
      Answer(h);
      Finish(h, true);
      ghost var left := reqs;
      NameserverFailed(k);
      CarriesPumped(left, reqs);
    }

    method Retransmit(h: Handle) returns (sent: Sent, ghost k: nat, ghost j: nat)
      requires Valid() && h in Flying(reqs)
      modifies this`reqs, this`servers, this`ring, this`good
      ensures Valid() && servers.Keys == old(servers.Keys)
      ensures reqs.Keys == old(reqs).Keys
      ensures Retransmitted(old(reqs), reqs, old(servers), servers, old(ring), h, k, j, sent, maxTimedout)
      ensures Unique(old(reqs)) ==> Unique(reqs)
      ensures Moving(old(reqs)) ==> Moving(reqs)
    {
      assert Assigned(reqs[h], servers);
      hide Filed, Counted, Listed, Unique, Moving, Up, Parked, Tried, Picked, Late, Retransmitted, MovedOff;
      var picked := NameserverPick();
      k := picked.value;
      SwapNs(h, picked);
      CarriesPumped(old(reqs), reqs);
      ghost var swapped, s := reqs, servers;
      sent := Transmit(h);
      CarriesPumped(swapped, reqs);
      ghost var tried, t := reqs, servers;
      j := TimedOut(h);
      RetransmittedSo(old(reqs), swapped, tried, reqs, old(servers), s, t, servers, old(ring), h, k, j, sent,
                      maxTimedout);
    }

    method TimedOut(h: Handle) returns (ghost j: nat)
      requires Valid() && h in Flying(reqs)
      modifies this`reqs, this`servers, this`ring, this`good
      ensures Valid() && servers.Keys == old(servers.Keys)
      ensures reqs.Keys == old(reqs).Keys && old(reqs[h].ns) == Some(j)
      ensures Late(old(reqs), reqs, old(servers), servers, j, maxTimedout)
      ensures Unique(old(reqs)) ==> Unique(reqs)
      ensures Moving(old(reqs)) ==> Moving(reqs)
    {
      assert Assigned(reqs[h], servers);
      j := reqs[h].ns.value;
      CountTimeout(reqs[h].ns.value);
    }

    method CountTimeout(j: nat)
      requires Valid() && j in servers
      modifies this`reqs, this`servers, this`ring, this`good
      ensures Valid() && servers.Keys == old(servers.Keys)
      ensures reqs.Keys == old(reqs).Keys
      ensures Late(old(reqs), reqs, old(servers), servers, j, maxTimedout)
      ensures Unique(old(reqs)) ==> Unique(reqs)
      ensures Moving(old(reqs)) ==> Moving(reqs)
    {
      hide Filed, Counted, Listed, Unique, Moving, Up, Parked, Flying, MovedOff, Pumped, Late, SameServers;
      SetServer(j, servers[j].(timedout := servers[j].timedout + 1));
      if servers[j].timedout > maxTimedout {
        SetServer(j, servers[j].(timedout := 0));
        ghost var s := servers;
        NameserverFailed(j);
        CarriesPumped(old(reqs), reqs);
        LateFails(old(reqs), reqs, old(servers), s, servers, j, maxTimedout);
      } else {
        LateOnce(reqs, old(servers), servers, j, maxTimedout);
      }
    }

    /** The timer of a request, so many times or until it is given up: how many packets went out meanwhile, and
        how many had to wait. After maxRetransmits packets the next timeout ends the request, and its user gets
        the error. */
    method TimeOutOften(h: Handle, times: nat) returns (outs: nat, late: nat, done: bool)
      requires Valid() && h in Flying(reqs)
      modifies this`reqs, this`heads, this`servers, this`ring, this`good, this`inflight, this`waiting, this`parked,
               this`answers
      ensures Valid()
      ensures done ==> h !in reqs && answers == old(answers) + multiset{h} && outs + late < times
      ensures done ==> old(reqs[h].txCount) + outs >= maxRetransmits
      ensures !done ==> h in Flying(reqs) && answers == old(answers) && outs + late == times
      ensures !done ==> reqs[h].txCount == old(reqs[h].txCount) + outs
      ensures times > maxRetransmits + late ==> done
    {
      hide Filed, Counted, Listed, Unique, Moving, Up, Parked, Retransmitted, NoRoom;
      outs, late, done := 0, 0, false;
      while outs + late < times
        invariant Valid() && !done && outs + late <= times
        invariant h in Flying(reqs) && answers == old(answers) && reqs[h].txCount == old(reqs[h].txCount) + outs
        invariant outs > 0 ==> old(reqs[h].txCount) + outs <= maxRetransmits
      {
        ghost var before := reqs;
        var sent, k, j := RequestTimeout(h);
        if sent.None? {
          done := true;
          return;
        }
        OnceMore(before, reqs, h, sent.value);
        if sent.value == TryLater {
          late := late + 1;
        } else {
          outs := outs + 1;
        }
      }
    }

    /** reply_handle. The reply is scheduled, or the request tries elsewhere: with another server, later,
        or under the next name of the search (if more says that there is one). */
    method ReplyHandle(h: Handle, verdict: Verdict, more: bool)
      requires Valid() && Fair() && h in Flying(reqs)
      modifies this`reqs, this`heads, this`servers, this`ring, this`good, this`inflight, this`waiting, this`parked,
               this`answers
      ensures Valid() && Fair()
      ensures servers.Keys == old(servers.Keys)
      ensures verdict == Good || (verdict == Wrong && !more) ==> h !in reqs
      ensures verdict == Wrong && more ==> Renewed(old(reqs), reqs, h)
      ensures verdict == Good || (verdict == Wrong && !more) ==>
                servers[old(reqs[h].ns.value)].up || |waiting| < |old(waiting)|
      ensures verdict == Unfit && old(reqs[h].reissues) < maxReissues ==> !servers[old(reqs[h].ns.value)].up
      ensures (verdict == Unfit && old(reqs[h].reissues) < maxReissues && old(reqs[h].txCount) > 0 &&
               OtherUp(old(servers), old(reqs[h].ns.value))) ==>
                Reissued(old(reqs), reqs, h, old(reqs[h].ns.value))
      ensures verdict == Unfit && old(reqs[h].reissues) >= maxReissues ==>
                (h in reqs <==> more) && (more ==> Renewed(old(reqs), reqs, h))
      ensures verdict == ServerFailed ==> (h in reqs <==> old(reqs[h].txCount) < maxRetransmits)
      ensures old(NoRoom()) && !more ==> NoRoom()
      ensures (old(NoRoom()) || !Searches(verdict, more)) && Unique(old(reqs)) ==> Unique(reqs)
      ensures Moving(old(reqs)) ==> Moving(reqs)
    {
      assert Assigned(reqs[h], servers);
      hide Filed, Counted, Listed, Unique, Moving, Up, Parked;
      match verdict
      case Good => Accepted(h, reqs[h].ns.value);
      case ServerFailed => LeftToTimeout(h);
      case Unfit => Refused(h, reqs[h].ns.value, more);
      case Wrong => NotFound(h, reqs[h].ns.value, more);
      forall x: Handle ensures Due(x) == if x < next then 1 else 0 {
        assert old(Due(x)) == if x < next then 1 else 0;
      }
    }

    method Accepted(h: Handle, k: nat)
      requires Valid() && k in servers && h in Flying(reqs) && reqs[h].ns == Some(k)
      modifies this`reqs, this`heads, this`servers, this`ring, this`good, this`inflight, this`waiting, this`parked,
               this`answers
      ensures Valid() && NoRoom() && h !in reqs
      ensures servers.Keys == old(servers.Keys) && (servers[k].up || |waiting| < |old(waiting)|)
      ensures forall x: Handle :: Due(x) == old(Due(x))
      ensures Unique(old(reqs)) ==> Unique(reqs)
      ensures Moving(old(reqs)) ==> Moving(reqs)
    {
      hide Filed, Counted, Listed, Unique, Moving, Up, Parked;
      Answer(h);
      label answered:
      ServerAnswers(h, k);
      label accepted:
      Done(h);
      forall x: Handle ensures Due(x) == old(Due(x)) {
        assert old@accepted(Due(x)) == old@answered(Due(x));
      }
    }

    method NotFound(h: Handle, k: nat, more: bool)
      requires Valid() && k in servers && h in Flying(reqs) && reqs[h].ns == Some(k)
      modifies this`reqs, this`heads, this`servers, this`ring, this`good, this`inflight, this`waiting, this`parked,
               this`answers
      ensures Valid() && (h in reqs <==> more) && (more ==> Renewed(old(reqs), reqs, h))
      ensures servers.Keys == old(servers.Keys) && (more || servers[k].up || |waiting| < |old(waiting)|)
      ensures forall x: Handle :: Due(x) == old(Due(x))
      ensures old(NoRoom()) && !more ==> NoRoom()
      ensures (old(NoRoom()) || !more) && Unique(old(reqs)) ==> Unique(reqs)
      ensures Moving(old(reqs)) ==> Moving(reqs)
    {
      hide Filed, Counted, Listed, Unique, Moving, Up, Parked;
      ServerAnswers(h, k);
      label accepted:
      Unanswered(h, more);
      forall x: Handle ensures Due(x) == old(Due(x)) {
        assert old@accepted(Due(x)) == old(Due(x));
      }
    }

    method LeftToTimeout(h: Handle)
      requires Valid() && h in Flying(reqs)
      modifies this`reqs, this`heads, this`servers, this`ring, this`good, this`inflight, this`waiting, this`parked,
               this`answers
      ensures Valid() && (h in reqs <==> old(reqs[h].txCount) < maxRetransmits)
      ensures h in reqs ==> reqs[h].txCount == old(reqs[h].txCount) + if reqs[h].transmitMe then 0 else 1
      ensures servers.Keys == old(servers.Keys)
      ensures forall x: Handle :: Due(x) == old(Due(x))
      ensures old(NoRoom()) ==> NoRoom()
      ensures Unique(old(reqs)) ==> Unique(reqs)
      ensures Moving(old(reqs)) ==> Moving(reqs)
    {
      hide Filed, Counted, Listed, Unique, Moving, Up, Parked, Retransmitted;
      var sent, k, j := RequestTimeout(h);
      if sent.Some? { OnceMore(old(reqs), reqs, h, sent.value); }
    }

    /** The server will not do it; another may. */
    method Refused(h: Handle, k: nat, more: bool)
      requires Valid() && k in servers && h in Flying(reqs) && reqs[h].ns == Some(k)
      modifies this`reqs, this`heads, this`servers, this`ring, this`good, this`inflight, this`waiting, this`parked,
               this`answers
      ensures Valid() && k in servers && (old(reqs[h].reissues) < maxReissues ==> !servers[k].up)
      ensures old(reqs[h].reissues) < maxReissues && old(reqs[h].txCount) > 0 && OtherUp(old(servers), k) ==>
                Reissued(old(reqs), reqs, h, k)
      ensures old(reqs[h].reissues) >= maxReissues ==> (h in reqs <==> more) && (more ==> Renewed(old(reqs), reqs, h))
      ensures servers.Keys == old(servers.Keys)
      ensures forall x: Handle :: Due(x) == old(Due(x))
      ensures old(NoRoom()) && !more ==> NoRoom()
      ensures (old(NoRoom()) || !more) && Unique(old(reqs)) ==> Unique(reqs)
      ensures Moving(old(reqs)) ==> Moving(reqs)
    {
      hide Filed, Counted, Listed, Unique, Moving, Up, Parked;
      var reissued := false;
      if reqs[h].reissues < maxReissues {
        reissued := TryAnother(h, k);
      }
      if !reissued {
        Unanswered(h, more);
      }
    }

    /** The server has answered: it is up, and a probe of it has done its work. */
    method ServerAnswers(h: Handle, k: nat)
      requires Valid() && k in servers && h in Flying(reqs) && reqs[h].ns == Some(k)
      modifies this`reqs, this`heads, this`servers, this`ring, this`good, this`inflight, this`waiting, this`parked,
               this`answers
      ensures Valid() && servers.Keys == old(servers.Keys) && servers[k].up &&
              (waiting == old(waiting) || |waiting| < |old(waiting)|)
      ensures h in reqs && reqs[h].ns.Some? && reqs[h].transId == old(reqs[h].transId)
      ensures old(NoRoom()) ==> NoRoom()
      ensures Unique(old(reqs)) ==> Unique(reqs)
      ensures Moving(old(reqs)) ==> Moving(reqs)
      ensures forall x: Handle :: Due(x) == old(Due(x))
    {
      hide Filed, Counted, Listed, Unique, Moving, Up, Parked;
      if servers[k].probe == Some(h) {
        SetServer(k, servers[k].(probe := None));
      }
      NameserverUp(k);
      assert PumpedOne(old(reqs)[h], reqs[h]);
    }

    method TryAnother(h: Handle, k: nat) returns (reissued: bool)
      requires Valid() && h in Flying(reqs) && reqs[h].ns == Some(k) && k in servers
      modifies this`reqs, this`servers, this`ring, this`good
      ensures Valid() && servers.Keys == old(servers.Keys) && !servers[k].up
      ensures old(reqs[h].txCount) > 0 && OtherUp(old(servers), k) ==> reissued && Reissued(old(reqs), reqs, h, k)
      ensures reqs.Keys == old(reqs).Keys && h in Flying(reqs) && reqs[h].transId == old(reqs[h].transId)
      ensures Unique(old(reqs)) ==> Unique(reqs)
      ensures Moving(old(reqs)) ==> Moving(reqs)
    {
      hide Filed, Counted, Listed, Unique, Moving, Up, Parked;
      NameserverFailed(k);
      CarriesSets(old(reqs), reqs);
      CarriesPumped(old(reqs), reqs);
      ghost var moved, picking := reqs, ring;
      assert MovedOne(old(reqs)[h], reqs[h], k, servers);
      ghost var failed := servers;
      reissued := RequestReissue(h);
      if old(reqs[h].txCount) > 0 && OtherUp(old(servers), k) {
        OtherStays(old(servers), failed, k);
        PickedOther(picking, failed, reqs[h].ns.value, k);
      }
      CarriesPumped(moved, reqs);
    }

    /** The end of an error in reply_handle. */
    method Unanswered(h: Handle, more: bool)
      requires Valid() && h in reqs && reqs[h].ns.Some?
      modifies this`reqs, this`heads, this`servers, this`ring, this`good, this`inflight, this`waiting, this`parked,
               this`answers
      ensures Valid() && (h in reqs <==> more) && (more ==> Renewed(old(reqs), reqs, h))
      ensures Falls(old(servers), servers)
      ensures !more && waiting == old(waiting) ==> NoneFell(old(servers), servers)
      ensures !more ==> (waiting == old(waiting) || |waiting| < |old(waiting)|)
      ensures forall x: Handle :: Due(x) == old(Due(x))
      ensures old(NoRoom()) && !more ==> NoRoom()
      ensures (old(NoRoom()) || !more) && Unique(old(reqs)) ==> Unique(reqs)
      ensures Moving(old(reqs)) ==> Moving(reqs)
    {
      hide Filed, Counted, Listed, Unique, Moving, Up, Parked;
      if more {
        SearchTryNext(h);
      } else {
        Answer(h);
        Finish(h, true);
      }
    }

    method Done(h: Handle)
      requires Valid() && h in reqs && reqs[h].ns.Some?
      modifies this`reqs, this`heads, this`servers, this`ring, this`good, this`inflight, this`waiting, this`parked
      ensures Valid() && NoRoom() && reqs.Keys == old(reqs).Keys - {h}
      ensures servers.Keys == old(servers.Keys) && (waiting == old(waiting) || |waiting| < |old(waiting)|)
      ensures waiting == old(waiting) ==> NoneFell(old(servers), servers)
      ensures Unique(old(reqs)) ==> Unique(reqs)
      ensures Moving(old(reqs)) ==> Moving(reqs)
    {
      hide Filed, Counted, Listed, Unique, Moving, Up, Parked, Flying;
      Finish(h, true);
    }

    /** The request of a probe, with the server and an identifier whatever the limit. */
    method NewProbe(k: nat, h: Handle) returns (r: Request)
      requires Valid() && k in servers && inflight < NO_ID
      modifies this`ring, this`servers
      ensures Valid() && r.ns == Some(k) && r.txCount == 0 && Assigned(r, servers) && !InUse(reqs, r.transId)
      ensures servers == old(servers)[k := old(servers)[k].(probe := Some(h))]
    {
      hide Filed, Counted, Listed, Up, Parked, Flying, CanDraw, InUse;
      r := RequestNew();
      SetServer(k, servers[k].(probe := Some(h)));
      var id := TransactionIdPick();
      r := r.(transId := id, ns := Some(k));
    }

    /** nameserver_send_probe: the probe flies, whatever the limit. */
    method SendProbe(k: nat) returns (h: Handle)
      requires Valid() && Fair() && k in servers && !servers[k].up && inflight < NO_ID
      modifies this`reqs, this`heads, this`servers, this`ring, this`good, this`inflight, this`waiting, this`parked,
               this`next
      ensures Valid() && Fair() && h == old(next) && h in reqs && reqs[h].ns == Some(k)
      ensures k in servers && servers[k].probe == Some(h) && (reqs[h].txCount == 1 || reqs[h].transmitMe)
      ensures servers.Keys == old(servers.Keys)
      ensures old(NoRoom()) ==> NoRoom()
      ensures Unique(old(reqs)) ==> Unique(reqs)
      ensures Moving(old(reqs)) ==> Moving(reqs)
    {
      hide Filed, Counted, Listed, Unique, Moving, Up, Parked, Flying, InUse;
      h := next;
      assert Due(h) == 0;
      next := next + 1;
      var r := NewProbe(k, h);
      Submit(h, r);
      assert PumpedOne(old(reqs)[h := r][h], reqs[h]);
      forall x: Handle ensures Due(x) == if x < next then 1 else 0 {
        assert old(Due(x)) == if x < old(next) then 1 else 0;
      }
    }

    /** nameserver_probe_callback. A failed probe sets a timer only, which is not part of the model. */
    method ProbeCallback(k: nat, canceled: bool, goodReply: bool)
      requires Valid() && k in servers
      modifies this`reqs, this`heads, this`servers, this`ring, this`good, this`inflight, this`waiting, this`parked,
               this`answers
      ensures Valid() && servers.Keys == old(servers.Keys)
      ensures forall x: Handle :: Due(x) == old(Due(x))
      ensures !canceled && goodReply ==> servers[k].up
      ensures !canceled && !goodReply ==> servers == old(servers)[k := old(servers[k]).(probe := None)]
      ensures canceled ==> servers == old(servers)
      ensures canceled || !goodReply ==> reqs == old(reqs) && answers == old(answers) && waiting == old(waiting)
      ensures old(NoRoom()) ==> NoRoom()
      ensures Unique(old(reqs)) ==> Unique(reqs)
      ensures Moving(old(reqs)) ==> Moving(reqs)
    {
      hide Filed, Counted, Listed, Unique, Moving, Up, Parked, Flying;
      if canceled {
        return;
      }
      SetServer(k, servers[k].(probe := None));
      if goodReply {
        NameserverUp(k);
      }
    }

    /** A server's socket can be written to again: what has to go out does. */
    method WriteReady(k: nat)
      requires Valid() && k in servers
      modifies this`reqs, this`servers, this`ring, this`good
      ensures Valid() && reqs.Keys == old(reqs).Keys && Carries(old(reqs), reqs)
      ensures servers.Keys == old(servers.Keys)
      ensures NoneFell(old(servers), servers) ==> Stuck(reqs, servers, Flying(reqs))
      ensures NoneFell(old(servers), servers) && servers[k].choked ==> exists h :: Awaits(reqs, h, k)
      ensures Unique(old(reqs)) ==> Unique(reqs)
      ensures Moving(old(reqs)) ==> Moving(reqs)
    {
      hide Filed, Counted, Listed, Unique, Moving, Up, Parked, Flying;
      SetServer(k, servers[k].(choked := false));
      TransmitAll();
      CarriesPumped(old(reqs), reqs);
    }

    /** evdns_nameserver_add_impl_: the new server comes after the head of the list. */
    method AddServer(k: nat)
      requires Valid() && k !in servers
      modifies this`servers, this`ring, this`good
      ensures Valid() && servers == old(servers)[k := Nameserver(true, false, 0, 0, None)]
      ensures ring == if old(ring) == [] then [k] else [old(ring)[0], k] + old(ring)[1..]
      ensures NoRoom() <==> waiting == [] || inflight >= maxInflight
      ensures old(Fair()) ==> Fair()
    {
      hide Filed, Counted, Listed, Flying, Parked, Up;
      ServerAdded(reqs, servers, ring, k);
      ring := if ring == [] then [k] else [ring[0], k] + ring[1..];
      servers := servers[k := Nameserver(true, false, 0, 0, None)];
      good := good + 1;
      assert k in servers;
      forall x: Handle ensures Due(x) == old(Due(x)) {}
    }

    /** evdns_base_set_max_requests_inflight: every inflight request is filed anew. What waits goes on waiting,
        also when there is room for it now. */
    method SetMaxRequestsInflight(limit: int)
      requires Valid() && limit <= 65000
      modifies this`heads, this`maxInflight
      ensures Valid() && maxInflight == if limit < 1 then 1 else limit
      ensures |heads| == (maxInflight + 4) / 5
      ensures waiting == old(waiting) && reqs == old(reqs) && inflight == old(inflight)
      ensures NoRoom() <==> waiting == [] || inflight >= (if limit < 1 then 1 else limit) || servers == map[]
      ensures old(Fair()) ==> Fair()
    {
      var max := if limit < 1 then 1 else limit;
      var newHeads := seq(Heads(max), _ => []);
      ghost var moved: set<Handle> := {};
      NoneFiled(reqs, newHeads);
      for i := 0 to |heads|
        invariant Valid() && heads == old(heads) && reqs == old(reqs)
        invariant |newHeads| == Heads(max) && moved <= Flying(reqs) && Filed(Part(reqs, moved), newHeads)
        invariant forall h <- moved :: Slot(reqs[h], |heads|) < i
        invariant forall b :: 0 <= b < i ==> Within(heads[b], moved)
      {
        newHeads, moved := Refile(i, newHeads, moved);
      }
      EveryOne(reqs, heads, moved);
      AllFiled(reqs, newHeads, moved, servers);
      heads, maxInflight := newHeads, max;
      forall x: Handle ensures Due(x) == old(Due(x)) {}
    }

    /** One of the old lists is emptied into the new ones. */
    method Refile(i: nat, newHeads: seq<seq<Handle>>, ghost moved: set<Handle>)
      returns (now: seq<seq<Handle>>, ghost all: set<Handle>)
      requires Valid() && i < |heads| && moved <= Flying(reqs) && Filed(Part(reqs, moved), newHeads)
      requires forall h <- moved :: Slot(reqs[h], |heads|) < i
      ensures |now| == |newHeads| && moved <= all <= Flying(reqs) && Filed(Part(reqs, all), now)
      ensures forall h <- all :: Slot(reqs[h], |heads|) < i + 1
      ensures Within(heads[i], all)
    {
      now, all := newHeads, moved;
      var l := heads[i];
      assert FiledAt(reqs, heads, i);
      for j := 0 to |l|
        invariant |now| == |newHeads| && moved <= all <= Flying(reqs) && Filed(Part(reqs, all), now)
        invariant forall h <- all :: Slot(reqs[h], |heads|) < i || (exists c :: 0 <= c < j && l[c] == h)
        invariant forall h <- all :: Slot(reqs[h], |heads|) < i + 1
        invariant forall c :: 0 <= c < j ==> l[c] in all
      {
        var h := l[j];
        assert h in Bucket(reqs, i, |heads|);
        ghost var before := all;
        RefileOne(reqs, all, now, h);
        now := Inserted(now, reqs[h], h);
        all := all + {h};
        forall c | 0 <= c < j + 1 ensures l[c] in all {
          assert c < j ==> l[c] in before;
        }
      }
    }

    /** The counters say how many requests the lists have, and on each server. */
    lemma {:induction false} Counters()
      requires Valid()
      ensures inflight == Lengths(heads, |heads|) && parked == |waiting|
      ensures forall k <- servers :: servers[k].inflight == |On(reqs, k)|
      ensures good == |Up(servers)|
    {
      LengthsAdd(reqs, heads);
      Waiting();
      forall k | k in servers ensures servers[k].inflight == |On(reqs, k)| {
        assert CountedAt(reqs, servers, k);
      }
    }

    /** evdns_cancel_request, by the user. */
    method Cancel(h: Handle)
      requires Valid() && Fair()
      modifies this`reqs, this`heads, this`servers, this`ring, this`good, this`inflight, this`waiting, this`parked,
               this`answers
      ensures Valid() && Fair() && h !in reqs
      ensures servers.Keys == old(servers.Keys)
      ensures Unique(old(reqs)) ==> Unique(reqs)
      ensures Moving(old(reqs)) ==> Moving(reqs)
    {
      hide Filed, Counted, Listed, Unique, Moving, Up, Parked, Flying, Pumped;
      assert h in reqs ==> Due(h) == if h < next then 1 else 0;
      CancelRequest(h);
      forall x: Handle ensures Due(x) == if x < next then 1 else 0 {
        assert old(Due(x)) == if x < next then 1 else 0;
      }
    }

    /** A search may go on to its next name while another request waits that could fly. */
    predicate Crowds(event: Event)
      reads this
    {
      event.Replies? && Searches(event.verdict, event.more) && !NoRoom()
    }

    method Step(event: Event)
      requires Valid() && Fair()
      modifies this
      ensures Valid() && Fair()
      ensures !old(Crowds(event)) && Unique(old(reqs)) ==> Unique(reqs)
      ensures Moving(old(reqs)) ==> Moving(reqs)
      ensures Follows(event, old(reqs), reqs, old(servers), servers)
      ensures event.Resolves? ==> next == old(next) + 1
      ensures maxInflight == LimitAfter(old(maxInflight), event)
      ensures servers.Keys == old(servers.Keys) + if event.Adds? then {event.k} else {}
    {
      hide Filed, Counted, Listed, Unique, Moving, Up, Parked, Pumped, CanDraw, InUse, Flying, Valid, Fair, NoRoom,
           FliesWith, Crowds, Searches, Due, Totals;
      match event {
      case Resolves =>
        var h := Resolve();
      case Cancels(h) => Cancel(h);
      case Adds(k) =>
        if k !in servers {
          AddServer(k);
        }
      case Limits(limit) =>
        if limit <= 65000 {
          SetMaxRequestsInflight(limit);
        }
      case _ => StepOut(event);
      }
    }

    /** What the event does to the request or the server that it names. */
    ghost predicate Follows(event: Event, a: map<Handle, Request>, b: map<Handle, Request>, s: map<nat, Nameserver>,
                            t: map<nat, Nameserver>)
    {
      match event
      case Replies(h, verdict, more) =>
        h in a && a[h].ns.Some? ==>
          && (verdict == Good || (verdict == Wrong && !more) ==> h !in b)
          && (verdict == Wrong && more ==> Renewed(a, b, h))
          && (verdict == ServerFailed ==> (h in b <==> a[h].txCount < maxRetransmits))
          && (verdict == Unfit && a[h].reissues < maxReissues ==> Down(t, a[h].ns.value))
      case TimesOut(h) =>
        h in a && a[h].ns.Some? ==>
          && (h in b <==> a[h].txCount < maxRetransmits)
          && (h in b ==> b[h].txCount == a[h].txCount + if b[h].transmitMe then 0 else 1)
      case Cancels(h) => h !in b
      case Probed(k, canceled, goodReply) => k in s && !canceled && goodReply ==> k in t && t[k].up
      case Writes(k) => k in s && NoneFell(s, t) ==> Stuck(b, t, Flying(b))
      case Adds(k) => k in t
      case _ => true
    }

    method StepReply(h: Handle, verdict: Verdict, more: bool)
      requires Valid() && Fair() && h in Flying(reqs)
      modifies this`reqs, this`heads, this`servers, this`ring, this`good, this`inflight, this`waiting, this`parked,
               this`answers
      ensures Valid() && Fair() && servers.Keys == old(servers.Keys)
      ensures (old(NoRoom()) || !Searches(verdict, more)) && Unique(old(reqs)) ==> Unique(reqs)
      ensures Moving(old(reqs)) ==> Moving(reqs)
      ensures Follows(Replies(h, verdict, more), old(reqs), reqs, old(servers), servers)
    {
      assert Assigned(reqs[h], servers);
      hide Filed, Counted, Listed, Unique, Moving, Up, Parked, Pumped, Flying, Valid, Fair, NoRoom, Searches, Renewed;
      ReplyHandle(h, verdict, more);
    }

    /** What comes from the network, or goes out to it. */
    method StepOut(event: Event)
      requires Valid() && Fair()
      requires !event.Resolves? && !event.Cancels? && !event.Adds? && !event.Limits?
      modifies this
      ensures Valid() && Fair()
      ensures !old(Crowds(event)) && Unique(old(reqs)) ==> Unique(reqs)
      ensures Moving(old(reqs)) ==> Moving(reqs)
      ensures Follows(event, old(reqs), reqs, old(servers), servers)
      ensures maxInflight == LimitAfter(old(maxInflight), event) && servers.Keys == old(servers.Keys)
    {
      hide Filed, Counted, Listed, Unique, Moving, Up, Parked, Pumped, CanDraw, InUse, Searches, Stuck, Renewed,
           NoRoom, Totals, FliesWith, NoneFell, ChokedFor;
      match event {
      case Replies(h, verdict, more) =>
        if h in reqs && reqs[h].ns.Some? {
          StepReply(h, verdict, more);
        }
      case TimesOut(h) =>
        if h in reqs && reqs[h].ns.Some? {
          LeftToTimeout(h);
        }
      case Probes(k) =>
        if k in servers && !servers[k].up && inflight < NO_ID {
          var h := SendProbe(k);
        }
      case Probed(k, canceled, goodReply) =>
        if k in servers {
          ProbeCallback(k, canceled, goodReply);
        }
      case Writes(k) =>
        if k in servers {
          WriteReady(k);
        }
      }
      forall x: Handle ensures Due(x) == if x < next then 1 else 0 {
        assert old(Due(x)) == if x < old(next) then 1 else 0;
      }
    }
  }

  /** A base with a limit of one and one server. */
  method SmallBase(dice: nat -> nat) returns (base: Base)
    ensures fresh(base) && base.Valid() && base.Fair() && base.dice == dice && base.reqs == map[] && base.waiting == []
    ensures base.inflight == 0 && base.maxInflight == 1 && base.servers != map[] && base.next == 0 && base.NoRoom()
  {
    base := new Base(1, 3, 3, dice);
    NoneFlies(base);
    base.AddServer(0);
    base.SetMaxRequestsInflight(1);
  }

  lemma {:induction false} NoneFlies(base: Base)
    requires base.Valid() && base.reqs == map[]
    ensures base.inflight == 0
  {
    assert Flying(base.reqs) == {};
  }

  /** A search goes on while nothing else waits, with a limit of one: the next request waits, and there is room. */
  method SearchWaits() returns (base: Base)
    ensures fresh(base) && base.Valid() && base.waiting != []
    ensures base.inflight < base.maxInflight && base.servers != map[]
  {
    hide Filed, Counted, Listed, Unique, Moving, Parked, Up;
    base := SmallBase(n => 7);
    var h := base.Resolve();
    assert h in Flying(base.reqs);
    base.SearchTryNext(h);
  }

  /** One request flies and one waits when the limit is raised; then a reply lets the search of the first go on. */
  method Crowded() returns (base: Base, h: Handle)
    ensures fresh(base) && base.Valid() && h in Flying(base.reqs)
    ensures base.Crowds(Replies(h, Wrong, true)) && CanDraw(base.reqs, base.dice(base.next))
  {
    hide Filed, Counted, Listed, Unique, Moving, Parked, Up, InUse;
    base := SmallBase(n => if n == 1 then 7 else 8);
    NoneUsed();
    h := base.Resolve();
    var w := base.Resolve();
    base.SetMaxRequestsInflight(2);
    OneFlies(base.reqs, h, w);
  }

  /** The next request of the search, and the one that waited, get one identifier. */
  method CrowdedSearch() returns (base: Base)
    ensures fresh(base) && base.Valid() && !Unique(base.reqs)
  {
    hide Filed, Counted, Listed, Unique, Moving, Parked, Up, CanDraw;
    var h;
    base, h := Crowded();
    base.SearchTryNext(h);
  }

  lemma {:induction false} NoneUsed()
    ensures forall id: nat :: !InUse(map[], id)
  {
    assert Flying(map[]) == {};
  }

  lemma {:induction false} OneFlies(reqs: map<Handle, Request>, h: Handle, w: Handle)
    requires reqs.Keys == {h, w} && reqs[w].ns.None? && reqs[h].transId == 7
    ensures !InUse(reqs, 8)
  {
  }

  /** The limit after an event: the option is clipped. */
  function LimitAfter(limit: int, event: Event): int {
    if event.Limits? && event.limit <= 65000 then if event.limit < 1 then 1 else event.limit else limit
  }

  function LimitOf(events: seq<Event>): int {
    if events == [] then 64 else LimitAfter(LimitOf(events[..|events| - 1]), events[|events| - 1])
  }

  /** The servers that the events have added. */
  function Added(events: seq<Event>): set<nat> {
    if events == [] then {}
    else Added(events[..|events| - 1]) + if events[|events| - 1].Adds? then {events[|events| - 1].k} else {}
  }

  /** Any run of events, those that cannot happen left out: the counters, the lists and the servers
      always agree, and every user gets one reply in the end. No two inflight requests have one identifier
      unless a search went on while another request waited that could fly. */
  method Run(events: seq<Event>, reissues: nat, retransmits: nat, timedout: nat, dice: nat -> nat)
    returns (base: Base, crowded: bool)
    ensures fresh(base) && base.Valid()
    ensures !crowded ==> Unique(base.reqs)
    ensures forall h <- base.reqs :: base.reqs[h].ns.Some? ==> base.reqs[h].txCount > 0 || base.reqs[h].transmitMe
    ensures base.maxInflight == LimitOf(events) && base.servers.Keys == Added(events)
    ensures base.inflight == Lengths(base.heads, |base.heads|) && base.parked == |base.waiting|
    ensures base.good == |Up(base.servers)|
    ensures forall k <- base.servers :: base.servers[k].inflight == |On(base.reqs, k)|
    ensures forall h: Handle :: base.answers[h] + (if h in base.reqs then 1 else 0) == if h < base.next then 1 else 0
  {
    hide Filed, Counted, Listed, Unique, Moving, Up, Parked, Base.Crowds, Base.Totals;
    base := new Base(reissues, retransmits, timedout, dice);
    crowded := false;
    assert events[..0] == [];
    for i := 0 to |events|
      invariant fresh(base) && base.Valid() && base.Fair()
      invariant Moving(base.reqs) && (!crowded ==> Unique(base.reqs))
      invariant base.maxInflight == LimitOf(events[..i]) && base.servers.Keys == Added(events[..i])
    {
      assert events[..i + 1][..i] == events[..i];
      if base.Crowds(events[i]) {
        crowded := true;
      }
      base.Step(events[i]);
    }
    assert events[..|events|] == events;
    base.Counters();
    forall h | h in base.reqs && base.reqs[h].ns.Some? ensures base.reqs[h].txCount > 0 || base.reqs[h].transmitMe {
      EachActive(base.reqs, h);
    }
    forall h: Handle ensures base.answers[h] + (if h in base.reqs then 1 else 0) == if h < base.next then 1 else 0 {
      assert base.Due(h) == if h < base.next then 1 else 0;
    }
  }
}
