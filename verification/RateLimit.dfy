/** The rate limit of one bufferevent: two buckets, one for each direction, that share one refill timer. */
module RateLimit {
  import opened Basics
  import opened TokenBucket

  datatype Way = Read | Write

  function Reverse(w: Way): Way { if w == Read then Write else Read }

  function Positive(limit: int): nat { if limit > 0 then limit else 0 }

  /** A configuration, which bufferevents share by pointer: the pointer, and what it points to. */
  datatype Cfg = Cfg(id: nat, read: Config, write: Config)
  {
    function Of(w: Way): Config { if w == Read then read else write }

    predicate Ok() { read.Ok() && write.Ok() }
  }

  /** One direction. enabled: the user wants it; active: be_ops has enabled it. */
  datatype Side = Side(limit: Limit, suspended: set<Reason>, enabled: bool, active: bool)
  {
    /** The direction is served just when it is wanted and nothing suspends it. */
    predicate Served() { active <==> enabled && suspended == {} }

    /** bufferevent_suspend_read_ and bufferevent_suspend_write_ */
    function Suspend(why: Reason): Side {
      (if suspended == {} then this.(active := false) else this).(suspended := suspended + {why})
    }

    /** bufferevent_unsuspend_read_ and bufferevent_unsuspend_write_ */
    function Unsuspend(why: Reason): Side {
      var t := this.(suspended := suspended - {why});
      if t.suspended == {} && enabled then t.(active := true) else t
    }
  }

  /** What the group of a bufferevent lets it move, if it is in one: nothing while the group is suspended,
      otherwise its share of the bucket of the group, but not less than the least share. */
  datatype Group = NoGroup | GroupSuspended | GroupServed(limit: Limit, members: nat, minShare: nat)
  {
    predicate Ok() { GroupServed? ==> members > 0 }
  }

  /** The division of C, which cuts off towards zero. */
  function Share(a: int, n: nat): int
    requires n > 0
  {
    if a < 0 then -(-a / n) else a / n
  }

  /** The smaller of what the bufferevent may move, and what its group lets it. */
  function Clamped(most: int, group: Group): nat
    requires group.Ok()
  {
    match group
    case NoGroup => Positive(most)
    case GroupSuspended => 0
    case GroupServed(limit, members, minShare) =>
      Positive(Min(most, if Share(limit, members) < minShare then minShare else Share(limit, members)))
  }

  /** m of the most bytes that the bufferevent may move: all of them outside of a group, none in a group that
      is suspended. In a group that is served, what each member would have of the bucket in equal parts, but at
      least the least share, and no more than most. */
  predicate FairShare(m: nat, most: int, group: Group) {
    match group
    case NoGroup => m == Positive(most)
    case GroupSuspended => m == 0
    case GroupServed(limit, members, minShare) =>
      if most <= 0 then m == 0
      else if limit < minShare * members then m == Min(most, minShare)
      else m <= most && m * members <= limit && (m < most ==> limit < (m + 1) * members)
  }

  /** That is what the division gives. */
  lemma ClampedFair(most: int, group: Group)
    requires group.Ok()
    ensures FairShare(Clamped(most, group), most, group)
    ensures group.GroupServed? && most > 0 ==> Clamped(most, group) >= Min(most, group.minShare)
  {
    if group.GroupServed? && most > 0 {
      ShareBounds(group.limit, group.members, group.minShare);
      var m, share := Clamped(most, group), Share(group.limit, group.members);
      if group.limit >= group.minShare * group.members && m < share {
        Scaled(m, share, group.members);
      }
    }
  }

  lemma Scaled(a: int, b: int, n: nat)
    requires a <= b
    ensures a * n <= b * n
  {
    assert (b - a) * n >= 0;
  }

  lemma ShareBounds(limit: int, members: nat, minShare: nat)
    requires members > 0
    ensures Share(limit, members) < minShare <==> limit < minShare * members && !(minShare == 0 && limit + members > 0)
    ensures limit >= 0 ==> Share(limit, members) * members <= limit < (Share(limit, members) + 1) * members
  {
    var q := Share(limit, members);
    if limit >= 0 {
      assert limit == members * q + limit % members;
      if q < minShare { Scaled(q + 1, minShare, members); } else { Scaled(minShare, q, members); }
    } else {
      assert -limit == members * -q + -limit % members;
      assert minShare * members >= 0;
      if q == 0 { assert -limit < members; }
      if q < 0 { Scaled(q, -1, members); }
    }
  }

  lemma SuspendServes(s: Side, why: Reason)
    requires s.Served()
    ensures s.Suspend(why).Served() && s.Unsuspend(why).Served()
  {
    assert s.Unsuspend(why).suspended != {} ==> s.suspended != {};
  }

  class Bufferevent {
    var read: Side
    var write: Side
    var cfg: Option<Cfg>
    var lastUpdated: Tick
    /** The refill timer is pending. */
    var timer: bool

    function Of(w: Way): Side
      reads this
    {
      if w == Read then read else write
    }

    /** An empty bucket suspends its direction; one that is suspended for bandwidth waits for the timer. */
    ghost predicate Watched(s: Side)
      reads this
    {
      && s.Served()
      && (Bandwidth in s.suspended ==> timer && cfg.Some?)
      && (cfg.Some? && s.limit <= 0 ==> Bandwidth in s.suspended)
    }

    ghost predicate Served()
      reads this
    {
      read.Served() && write.Served()
    }

    ghost predicate Valid()
      reads this
    {
      Watched(read) && Watched(write) && (cfg.Some? ==> cfg.value.Ok()) && (timer ==> cfg.Some?)
    }

    constructor ()
      ensures Valid() && cfg.None? && read == write == Side(0, {}, false, false)
    {
      read, write := Side(0, {}, false, false), Side(0, {}, false, false);
      cfg, lastUpdated, timer := None, 0, false;
    }

    method Put(w: Way, s: Side)
      modifies this`read, this`write
      ensures Of(w) == s
      ensures w == Read ==> write == old(write)
      ensures w == Write ==> read == old(read)
    {
      if w == Read {
        read := s;
      } else {
        write := s;
      }
    }

    /** bufferevent_decrement_read_buckets_ and bufferevent_decrement_write_buckets_, outside of a group. */
    method DecrementBuckets(w: Way, bytes: int)
      requires Valid() && (cfg.Some? ==> -SSIZE_MAX - 1 <= Of(w).limit - bytes <= SSIZE_MAX)
      modifies this`read, this`write, this`timer
      ensures Valid()
      ensures Of(w).limit == if cfg.Some? then old(Of(w)).limit - bytes else old(Of(w)).limit
      ensures cfg.Some? ==> (Bandwidth in Of(w).suspended <==> Of(w).limit <= 0)
      ensures timer == if cfg.Some? && Of(w).limit <= 0 then true
                       else if cfg.Some? && Bandwidth in old(Of(w)).suspended && Bandwidth !in Of(Reverse(w)).suspended
                       then false else old(timer)
      ensures Of(w).suspended - {Bandwidth} == old(Of(w)).suspended - {Bandwidth}
      ensures Of(w).enabled == old(Of(w)).enabled
      ensures w == Read ==> write == old(write)
      ensures w == Write ==> read == old(read)
    {
      if cfg.None? {
        return;
      }
      var s, other := Of(w), Of(if w == Read then Write else Read);
      s := s.(limit := s.limit - bytes);
      SuspendServes(s, Bandwidth);
      if s.limit <= 0 {
        s := s.Suspend(Bandwidth);
        timer := true;
      } else if Bandwidth in s.suspended {
        if Bandwidth !in other.suspended {
          timer := false;
        }
        s := s.Unsuspend(Bandwidth);
      }
      Put(w, s);
    }

    /** bufferevent_decrement_read_limit and bufferevent_decrement_write_limit; a negative number refills. */
    method DecrementLimit(w: Way, decr: int)
      requires Valid() && cfg.Some? && -SSIZE_MAX - 1 <= Of(w).limit - decr <= SSIZE_MAX
      modifies this`read, this`write, this`timer
      ensures Valid()
      ensures Of(w).limit == old(Of(w)).limit - decr
      ensures Bandwidth in Of(w).suspended <==>
                Of(w).limit <= 0 || (old(Of(w)).limit > 0 && Bandwidth in old(Of(w)).suspended)
      ensures timer == if old(Of(w)).limit > 0 >= Of(w).limit then true
                       else if old(Of(w)).limit <= 0 < Of(w).limit && Bandwidth !in Of(Reverse(w)).suspended
                       then false else old(timer)
      ensures Of(w).suspended - {Bandwidth} == old(Of(w)).suspended - {Bandwidth}
      ensures Of(w).enabled == old(Of(w)).enabled
      ensures w == Read ==> write == old(write)
      ensures w == Write ==> read == old(read)
    {
      var s, other := Of(w), Of(if w == Read then Write else Read);
      var was := s.limit;
      s := s.(limit := s.limit - decr);
      SuspendServes(s, Bandwidth);
      if was > 0 && s.limit <= 0 {
        s := s.Suspend(Bandwidth);
        timer := true;
      } else if was <= 0 && s.limit > 0 {
        if Bandwidth !in other.suspended {
          timer := false;
        }
        s := s.Unsuspend(Bandwidth);
      }
      Put(w, s);
    }

    /** The update at this tick would leave a bucket empty whose direction is still served. */
    predicate Overflows(tick: Tick)
      reads this
      requires cfg.Some?
    {
      var n := Elapsed(lastUpdated, tick);
      || (Bandwidth !in read.suspended && Sinks(read.limit, cfg.value.read, n))
      || (Bandwidth !in write.suspended && Sinks(write.limit, cfg.value.write, n))
    }

    /** ev_token_bucket_update_ on the bucket of this bufferevent. */
    method UpdateBuckets(tick: Tick)
      requires Valid() && cfg.Some?
      modifies this`read, this`write, this`lastUpdated
      ensures Valid() <==> !old(Overflows(tick))
      ensures read == old(read).(limit := read.limit) && write == old(write).(limit := write.limit)
      ensures forall w :: Topped(old(Of(w)).limit, cfg.value.Of(w), Elapsed(old(lastUpdated), tick), Of(w).limit)
      ensures lastUpdated == if Elapsed(old(lastUpdated), tick) == 0 then old(lastUpdated) else tick
    {
      hide Topped, Sinks;
      var n := Elapsed(lastUpdated, tick);
      ToppedNot(read.limit, cfg.value.read);
      ToppedNot(write.limit, cfg.value.write);
      if n == 0 {
        return;
      }
      var r := Refill(read.limit, cfg.value.read, n);
      var w := Refill(write.limit, cfg.value.write, n);
      ToppedUp(read.limit, cfg.value.read, n, r);
      ToppedUp(write.limit, cfg.value.write, n, w);
      read, write := read.(limit := r), write.(limit := w);
      lastUpdated := tick;
    }

    /** The part of bufferevent_get_rlim_max_ for the group. */
    method ClampTo(w: Way, limit: int, group: Group) returns (m: nat)
      requires Served() && group.Ok()
      modifies this`read, this`write
      ensures Served() && m == Clamped(limit, group)
      ensures Of(w) == if group.GroupSuspended? then old(Of(w)).Suspend(GroupBandwidth) else old(Of(w))
      ensures Of(Reverse(w)) == old(Of(Reverse(w)))
    {
      var most := limit;
      if !group.NoGroup? {
        var share: int;
        if group.GroupSuspended? {
          SuspendServes(Of(w), GroupBandwidth);
          Put(w, Of(w).Suspend(GroupBandwidth));
          share := 0;
        } else {
          share := Share(group.limit, group.members);
          if share < group.minShare {
            share := group.minShare;
          }
        }
        if most > share {
          most := share;
        }
      }
      m := if most < 0 then 0 else most;
    }

    /** bufferevent_get_rlim_max_ */
    method GetMax(w: Way, maxSingle: Limit, group: Group, tick: Tick) returns (m: nat)
      requires Valid() && group.Ok()
      modifies this`read, this`write, this`lastUpdated
      ensures Valid() <==> cfg.None? || !old(Overflows(tick))
      ensures m == Clamped(if cfg.Some? then Of(w).limit else maxSingle, group)
      ensures FairShare(m, if cfg.Some? then Of(w).limit else maxSingle, group)
      ensures
        var s := if group.GroupSuspended? then old(Of(w)).Suspend(GroupBandwidth) else old(Of(w));
        Of(w) == s.(limit := Of(w).limit)
      ensures Of(Reverse(w)) == old(Of(Reverse(w))).(limit := Of(Reverse(w)).limit)
      ensures cfg.None? ==> Of(w).limit == old(Of(w)).limit && lastUpdated == old(lastUpdated)
      ensures cfg.Some? ==>
                forall x :: Topped(old(Of(x)).limit, cfg.value.Of(x), Elapsed(old(lastUpdated), tick), Of(x).limit)
      ensures cfg.Some? ==> lastUpdated == if Elapsed(old(lastUpdated), tick) == 0 then old(lastUpdated) else tick
    {
      hide Topped, Sinks, Stays, Elapsed, Share;
      ElapsedNot(tick);
      var most: int := maxSingle;
      if cfg.Some? {
        ToppedNot(read.limit, cfg.value.read);
        ToppedNot(write.limit, cfg.value.write);
        if tick != lastUpdated {
          UpdateBuckets(tick);
        }
        most := Of(w).limit;
      }
      m := ClampTo(w, most, group);
      ClampedFair(most, group);
    }

    /** The end of bev_refill_callback_: the directions whose buckets are no longer empty are resumed. */
    method Resume()
      requires Served() && !timer
      modifies this`read, this`write, this`timer
      ensures Served() && forall w :: Of(w).enabled == old(Of(w)).enabled && Of(w).limit == old(Of(w)).limit
      ensures forall w :: Of(w).suspended - {Bandwidth} == old(Of(w)).suspended - {Bandwidth}
      ensures forall w :: Bandwidth in Of(w).suspended <==> Bandwidth in old(Of(w)).suspended && Of(w).limit <= 0
      ensures timer <==> Bandwidth in read.suspended || Bandwidth in write.suspended
    {
      var again := false;
      SuspendServes(read, Bandwidth);
      SuspendServes(write, Bandwidth);
      if Bandwidth in read.suspended {
        if read.limit > 0 {
          read := read.Unsuspend(Bandwidth);
        } else {
          again := true;
        }
      }
      if Bandwidth in write.suspended {
        if write.limit > 0 {
          write := write.Unsuspend(Bandwidth);
        } else {
          again := true;
        }
      }
      if again {
        timer := true;
      }
    }

    /** bev_refill_callback_: the timer has run. */
    method RefillCallback(tick: Tick)
      requires Valid() && timer
      modifies this
      ensures (Valid() <==> !old(Overflows(tick))) && cfg == old(cfg)
      ensures forall w :: Of(w).enabled == old(Of(w)).enabled
      ensures forall w :: Of(w).suspended - {Bandwidth} == old(Of(w)).suspended - {Bandwidth}
      ensures lastUpdated == if Elapsed(old(lastUpdated), tick) == 0 then old(lastUpdated) else tick
      ensures forall w :: Topped(old(Of(w)).limit, cfg.value.Of(w), Elapsed(old(lastUpdated), tick), Of(w).limit)
      ensures forall w :: Bandwidth in Of(w).suspended <==> Bandwidth in old(Of(w)).suspended && Of(w).limit <= 0
      ensures timer <==> Bandwidth in read.suspended || Bandwidth in write.suspended
    {
      hide Topped, Sinks, Stays, Elapsed;
      UpdateBuckets(tick);
      timer := false;
      assert Of(Read) == read && Of(Write) == write;
      Resume();
      assert Of(Read) == read && Of(Write) == write;
    }

    /** The end of bufferevent_set_rate_limit, with a configuration. */
    method Assign()
      requires Served() && cfg.Some? && cfg.value.Ok() && !timer
      modifies this`read, this`write, this`timer
      ensures Valid()
      ensures forall w :: Of(w).enabled == old(Of(w)).enabled && Of(w).limit == old(Of(w)).limit
      ensures forall w :: Of(w).suspended - {Bandwidth} == old(Of(w)).suspended - {Bandwidth}
      ensures forall w :: Bandwidth in Of(w).suspended <==> Of(w).limit <= 0
      ensures timer <==> read.limit <= 0 || write.limit <= 0
    {
      SuspendServes(read, Bandwidth);
      SuspendServes(write, Bandwidth);
      // The event is assigned anew, which it must not be while it is pending.
      assert !timer;
      var suspended := read.limit <= 0 || write.limit <= 0;
      read := if read.limit > 0 then read.Unsuspend(Bandwidth) else read.Suspend(Bandwidth);
      write := if write.limit > 0 then write.Unsuspend(Bandwidth) else write.Suspend(Bandwidth);
      if suspended {
        timer := true;
      }
    }

    /** bufferevent_set_rate_limit; no configuration takes the limit away. */
    method SetRateLimit(new': Option<Cfg>, tick: Tick)
      requires Valid() && (new'.Some? ==> new'.value.Ok())
      modifies this
      ensures Valid() && cfg == new'
      ensures forall w :: Of(w).enabled == old(Of(w)).enabled
      ensures forall w :: Of(w).suspended - {Bandwidth} == old(Of(w)).suspended - {Bandwidth}
      ensures cfg.Some? && old(cfg) != cfg ==> forall w :: Bandwidth in Of(w).suspended <==> Of(w).limit <= 0
      ensures lastUpdated == if old(cfg).None? && cfg.Some? then tick else old(lastUpdated)
      ensures old(cfg) == cfg && cfg.Some? ==> read == old(read) && write == old(write) && timer == old(timer)
      ensures cfg.None? ==> Bandwidth !in read.suspended && Bandwidth !in write.suspended && !timer
      ensures cfg.Some? && old(cfg) != cfg ==> (timer <==> read.limit <= 0 || write.limit <= 0)
      ensures old(cfg).None? && cfg.Some? ==> forall w :: Of(w).limit == cfg.value.Of(w).rate
      ensures old(cfg).Some? && cfg.Some? && old(cfg) != cfg ==>
                forall w :: Of(w).limit == Min(old(Of(w)).limit, cfg.value.Of(w).maximum)
    {
      SuspendServes(read, Bandwidth);
      SuspendServes(write, Bandwidth);
      if new'.None? {
        cfg := None;
        read, write := read.Unsuspend(Bandwidth), write.Unsuspend(Bandwidth);
        timer := false;
        return;
      }
      if cfg == new' {
        return;
      }
      var reinit := cfg.Some?;
      cfg := new';
      if reinit {
        read := read.(limit := Min(read.limit, cfg.value.read.maximum));
        write := write.(limit := Min(write.limit, cfg.value.write.maximum));
        timer := false;
      } else {
        read, write := read.(limit := cfg.value.read.rate), write.(limit := cfg.value.write.rate);
        lastUpdated := tick;
      }
      Assign();
    }

    /** bufferevent_suspend_read_ and its kin, for a reason that is not the bandwidth. */
    method Suspend(w: Way, why: Reason)
      requires Valid() && why != Bandwidth
      modifies this`read, this`write
      ensures Valid() && Of(w) == old(Of(w)).Suspend(why) && Of(Reverse(w)) == old(Of(Reverse(w)))
      ensures Of(w).suspended == old(Of(w)).suspended + {why}
    {
      SuspendServes(Of(w), why);
      Put(w, Of(w).Suspend(why));
    }

    method Unsuspend(w: Way, why: Reason)
      requires Valid() && why != Bandwidth
      modifies this`read, this`write
      ensures Valid() && Of(w) == old(Of(w)).Unsuspend(why) && Of(Reverse(w)) == old(Of(Reverse(w)))
      ensures Of(w).suspended == old(Of(w)).suspended - {why}
    {
      SuspendServes(Of(w), why);
      Put(w, Of(w).Unsuspend(why));
    }

    /** bufferevent_enable, for one direction. */
    method Enable(w: Way)
      requires Valid()
      modifies this`read, this`write
      ensures Valid() && Of(w) == old(Of(w)).(enabled := true, active := old(Of(w)).suspended == {})
      ensures Of(Reverse(w)) == old(Of(Reverse(w)))
    {
      var s := Of(w).(enabled := true);
      Put(w, if s.suspended == {} then s.(active := true) else s);
    }

    /** bufferevent_disable, for one direction. */
    method Disable(w: Way)
      requires Valid()
      modifies this`read, this`write
      ensures Valid() && Of(w) == old(Of(w)).(enabled := false, active := false)
      ensures Of(Reverse(w)) == old(Of(Reverse(w)))
    {
      Put(w, Of(w).(enabled := false, active := false));
    }

    /** No limit is above its maximum: no caller has raised one by hand. */
    ghost predicate Capped()
      reads this
    {
      cfg.Some? ==> read.limit <= cfg.value.read.maximum && write.limit <= cfg.value.write.maximum
    }
  }

  function TickAt(time: nat): Tick { time % TWO32 }

  lemma ElapsedNot(now: Tick)
    ensures Elapsed(now, now) == 0
  {
  }

  /** Once a bucket has been looked at, the ticks that it will count are no more than those that pass. */
  lemma ElapsedSince(last: Tick, seen: nat, d: nat)
    requires Elapsed(last, TickAt(seen)) == 0
    ensures Elapsed(last, TickAt(seen + d)) <= d
  {
    var e, q := (TickAt(seen) - last) % TWO32, (TickAt(seen) - last) / TWO32;
    var j := q + seen / TWO32 - (seen + d) / TWO32;
    assert TickAt(seen + d) - last == e + d + TWO32 * j;
    Shifted(e + d, j);
    Wraps(e, d);
  }

  lemma Shifted(x: int, j: int)
    ensures (x + TWO32 * j) % TWO32 == x % TWO32
  {
  }

  lemma Wraps(e: nat, d: nat)
    requires e == 0 || INT_MAX < e < TWO32
    ensures var n := (e + d) % TWO32; n > INT_MAX || n <= d
  {
    if e + d < TWO32 {
      assert (e + d) % TWO32 == e + d;
    } else {
      assert (e + d) % TWO32 <= e + d - TWO32 by { Shifted(e + d - TWO32, 1); }
    }
  }

  /** What has gone through and what is left are together no more than the maximum and the rate. */
  predicate Within(total: nat, limit: Limit, cfg: Config, ticks: nat) {
    total + Positive(limit) <= cfg.maximum + cfg.rate * ticks
  }

  /** A refill keeps that, as it counts no more ticks than pass; the first one starts anew. */
  lemma WithinTopped(total: nat, before: Limit, after: Limit, cfg: Config, n: nat, ticks: nat, d: nat)
    requires cfg.Ok() && before <= cfg.maximum && Topped(before, cfg, n, after) && n <= INT_MAX
    requires total == 0 || (Within(total, before, cfg, ticks) && n <= d)
    ensures after <= cfg.maximum && Within(total, after, cfg, ticks + d)
  {
    if n > 0 {
      Monotone(n, 1, cfg.rate);
    }
    Monotone(cfg.rate, 0, ticks + d);
    if n <= d {
      Monotone(cfg.rate, n, d);
      assert cfg.rate * (ticks + d) == cfg.rate * ticks + cfg.rate * d;
    }
  }

  lemma WithinMoved(total: nat, limit: Limit, cfg: Config, ticks: nat, bytes: nat)
    requires Within(total, limit, cfg, ticks) && bytes <= Positive(limit)
    ensures Within(total + bytes, limit - bytes, cfg, ticks)
  {
  }

  lemma WithinLower(total: nat, limit: Limit, lower: Limit, cfg: Config, ticks: nat)
    requires Within(total, limit, cfg, ticks) && lower <= limit
    ensures Within(total, lower, cfg, ticks)
  {
  }

  lemma NoOverflow(b: Bufferevent, tick: Tick)
    requires b.Capped() && b.cfg.Some?
    ensures !b.Overflows(tick)
  {
  }

  lemma ClampedLess(most: int, group: Group)
    requires group.Ok()
    ensures Clamped(most, group) <= Positive(most)
  {
  }

  /** What can happen to a bufferevent whose configuration stays: bytes are wanted in one direction, and
      as many of them moved as the limits let through; the limits are looked at; a caller charges for
      bytes that it has moved otherwise; the timer runs; a direction is suspended, enabled and so on. */
  datatype Act =
    | Moves(w: Way, bytes: nat, group: Group)
    | Looks(w: Way, group: Group)
    | Charges(w: Way, bytes: nat)
    | Refills
    | Suspends(w: Way, why: Reason)
    | Unsuspends(w: Way, why: Reason)
    | Enables(w: Way)
    | Disables(w: Way)

  /** An act, so many ticks after the one before. */
  datatype Timed = Timed(ticks: nat, act: Act)

  /** What has been moved in each direction. */
  datatype Moved = Moved(read: nat, write: nat)
  {
    function Of(w: Way): nat { if w == Read then read else write }

    function Plus(w: Way, bytes: nat): Moved {
      if w == Read then this.(read := read + bytes) else this.(write := write + bytes)
    }
  }

  predicate Allowed(act: Act) {
    match act
    case Moves(w, bytes, group) => group.Ok()
    case Looks(w, group) => group.Ok()
    case Suspends(w, why) => why != Bandwidth
    case Unsuspends(w, why) => why != Bandwidth
    case _ => true
  }

  /** What has been moved since start is within the bounds, as of the last look at the buckets. Before the
      first look nothing has been moved. */
  ghost predicate Bounded(b: Bufferevent, moved: Moved, start: nat, looked: nat)
    reads b
  {
    && b.Valid() && b.Capped() && b.cfg.Some?
    && start <= looked
    && (moved == Moved(0, 0) || Elapsed(b.lastUpdated, TickAt(looked)) == 0)
    && forall w :: Within(moved.Of(w), b.Of(w).limit, b.cfg.value.Of(w), looked - start)
  }

  /** A look at the buckets: the bounds hold as of now. */
  method Look(b: Bufferevent, w: Way, maxSingle: Limit, group: Group, ghost moved: Moved, ghost start: nat,
              ghost looked: nat, time: nat)
    returns (most: nat)
    requires Bounded(b, moved, start, looked) && looked <= time && group.Ok()
    modifies b`read, b`write, b`lastUpdated
    ensures Bounded(b, moved, start, time) && Elapsed(b.lastUpdated, TickAt(time)) == 0
    ensures most <= Positive(b.Of(w).limit) && FairShare(most, b.Of(w).limit, group)
  {
    hide Within, Topped, Elapsed, TickAt, Sinks, Stays, Clamped;
    NoOverflow(b, TickAt(time));
    ElapsedNot(TickAt(time));
    ghost var n := Elapsed(b.lastUpdated, TickAt(time));
    if moved != Moved(0, 0) {
      ElapsedSince(b.lastUpdated, looked, time - looked);
    }
    ghost var r, w' := b.read.limit, b.write.limit;
    most := b.GetMax(w, maxSingle, group, TickAt(time));
    WithinTopped(moved.read, r, b.Of(Read).limit, b.cfg.value.read, n, looked - start, time - looked);
    WithinTopped(moved.write, w', b.Of(Write).limit, b.cfg.value.write, n, looked - start, time - looked);
    ClampedLess(b.Of(w).limit, group);
  }

  /** The timer runs: the same. */
  method RunTimer(b: Bufferevent, ghost moved: Moved, ghost start: nat, ghost looked: nat, time: nat)
    requires Bounded(b, moved, start, looked) && looked <= time && b.timer
    modifies b
    ensures Bounded(b, moved, start, time) && b.cfg == old(b.cfg)
  {
    hide Within, Topped, Elapsed, TickAt, Sinks, Stays;
    NoOverflow(b, TickAt(time));
    ElapsedNot(TickAt(time));
    ghost var n := Elapsed(b.lastUpdated, TickAt(time));
    if moved != Moved(0, 0) {
      ElapsedSince(b.lastUpdated, looked, time - looked);
    }
    ghost var r, w := b.read.limit, b.write.limit;
    b.RefillCallback(TickAt(time));
    WithinTopped(moved.read, r, b.Of(Read).limit, b.cfg.value.read, n, looked - start, time - looked);
    WithinTopped(moved.write, w, b.Of(Write).limit, b.cfg.value.write, n, looked - start, time - looked);
  }

  /** As many bytes as are wanted and as the limits let through. */
  method Move(b: Bufferevent, w: Way, bytes: nat, maxSingle: Limit, group: Group, sofar: Moved, ghost start: nat,
              ghost looked: nat, time: nat)
    returns (moved: Moved, ghost most: nat)
    requires Bounded(b, sofar, start, looked) && looked <= time && group.Ok()
    modifies b
    ensures Bounded(b, moved, start, time) && b.cfg == old(b.cfg)
    ensures moved == sofar.Plus(w, if bytes < most then bytes else most)
    ensures FairShare(most, b.Of(w).limit + moved.Of(w) - sofar.Of(w), group)
  {
    hide Within, Topped, Elapsed, TickAt, Sinks, Stays;
    var through := Look(b, w, maxSingle, group, sofar, start, looked, time);
    most := through;
    var n := if bytes < through then bytes else through;
    WithinMoved(sofar.Of(w), b.Of(w).limit, b.cfg.value.Of(w), time - start, n);
    b.DecrementBuckets(w, n);
    moved := sofar.Plus(w, n);
  }

  /** A caller charges for bytes. */
  method Charge(b: Bufferevent, w: Way, bytes: nat, ghost moved: Moved, ghost start: nat, ghost looked: nat)
    requires Bounded(b, moved, start, looked) && b.Of(w).limit - bytes >= -SSIZE_MAX - 1
    modifies b
    ensures Bounded(b, moved, start, looked) && b.cfg == old(b.cfg)
    ensures b.Of(w).limit == old(b.Of(w)).limit - bytes
  {
    hide Within, Elapsed, TickAt;
    WithinLower(moved.Of(w), b.Of(w).limit, b.Of(w).limit - bytes, b.cfg.value.Of(w), looked - start);
    b.DecrementLimit(w, bytes);
  }

  method Perform(b: Bufferevent, maxSingle: Limit, act: Act, sofar: Moved, ghost start: nat, ghost looked: nat,
                 time: nat)
    returns (moved: Moved, ghost seen: nat, ghost most: nat)
    requires Bounded(b, sofar, start, looked) && looked <= time && Allowed(act)
    modifies b
    ensures Bounded(b, moved, start, seen) && looked <= seen <= time && b.cfg == old(b.cfg)
    ensures !act.Moves? ==> moved == sofar
    ensures act.Moves? ==>
              && moved == sofar.Plus(act.w, if act.bytes < most then act.bytes else most)
              && FairShare(most, b.Of(act.w).limit + moved.Of(act.w) - sofar.Of(act.w), act.group)
    ensures act.Charges? && old(b.Of(act.w)).limit - act.bytes >= -SSIZE_MAX - 1 ==>
              b.Of(act.w).limit == old(b.Of(act.w)).limit - act.bytes
  {
    hide Within, Elapsed, TickAt;
    moved, seen, most := sofar, looked, 0;
    match act
    case Moves(w, bytes, group) =>
      moved, most := Move(b, w, bytes, maxSingle, group, sofar, start, looked, time);
      seen := time;
    case Looks(w, group) =>
      var through := Look(b, w, maxSingle, group, sofar, start, looked, time);
      seen := time;
    case Charges(w, bytes) =>
      if b.Of(w).limit - bytes >= -SSIZE_MAX - 1 {
        Charge(b, w, bytes, sofar, start, looked);
      }
    case Refills =>
      if b.timer {
        RunTimer(b, sofar, start, looked, time);
        seen := time;
      }
    case Suspends(w, why) => b.Suspend(w, why);
    case Unsuspends(w, why) => b.Unsuspend(w, why);
    case Enables(w) => b.Enable(w);
    case Disables(w) => b.Disable(w);
  }

  lemma WithinTime(total: nat, limit: Limit, cfg: Config, ticks: nat, later: nat)
    requires Within(total, limit, cfg, ticks) && cfg.Ok() && ticks <= later
    ensures total <= cfg.maximum + cfg.rate * later
  {
    Monotone(cfg.rate, ticks, later);
  }

  function Ticks(acts: seq<Timed>): nat { if acts == [] then 0 else Ticks(acts[..|acts| - 1]) + acts[|acts| - 1].ticks }

  /** However much is wanted, in both directions and whenever, and whatever else happens: over any time,
      no more goes through in a direction than its maximum and its rate for each tick. */
  method Transfer(b: Bufferevent, maxSingle: Limit, start: nat, acts: seq<Timed>) returns (moved: Moved, time: nat)
    requires b.Valid() && b.Capped() && b.cfg.Some?
    requires forall i :: 0 <= i < |acts| ==> Allowed(acts[i].act)
    modifies b
    ensures b.Valid() && b.Capped() && b.cfg == old(b.cfg) && time == start + Ticks(acts)
    ensures forall w ::
      moved.Of(w) <= b.cfg.value.Of(w).maximum + b.cfg.value.Of(w).rate * (time - start)
  {
    moved, time := Moved(0, 0), start;
    assert acts[..0] == [];
    ghost var looked: nat := start;
    for i := 0 to |acts|
      invariant Bounded(b, moved, start, looked) && looked <= time && b.cfg == old(b.cfg)
      invariant time == start + Ticks(acts[..i])
    {
      assert acts[..i + 1][..i] == acts[..i];
      time := time + acts[i].ticks;
      ghost var most;
      moved, looked, most := Perform(b, maxSingle, acts[i].act, moved, start, looked, time);
    }
    assert acts[..|acts|] == acts;
    forall w
      ensures moved.Of(w) <= b.cfg.value.Of(w).maximum + b.cfg.value.Of(w).rate * (time - start)
    {
      WithinTime(moved.Of(w), b.Of(w).limit, b.cfg.value.Of(w), looked - start, time - start);
    }
  }

  /** Whatever can happen to a bufferevent, changes of its configuration included. */
  datatype Event =
    | Decrements(w: Way, bytes: int)
    | Adjusts(w: Way, decr: int)
    | Looks(w: Way, maxSingle: Limit, group: Group, tick: Tick)
    | Refills(tick: Tick)
    | Configures(new': Option<Cfg>, tick: Tick)
    | Suspends(w: Way, why: Reason)
    | Unsuspends(w: Way, why: Reason)
    | Enables(w: Way)
    | Disables(w: Way)

  /** The event can happen, and takes no limit beyond 64 bits by a decrement. */
  predicate Possible(b: Bufferevent, event: Event)
    reads b
  {
    match event
    case Decrements(w, bytes) => b.cfg.Some? ==> -SSIZE_MAX - 1 <= b.Of(w).limit - bytes <= SSIZE_MAX
    case Adjusts(w, decr) => b.cfg.Some? && -SSIZE_MAX - 1 <= b.Of(w).limit - decr <= SSIZE_MAX
    case Looks(w, maxSingle, group, tick) => group.Ok()
    case Refills(tick) => b.timer
    case Configures(new', tick) => new'.Some? ==> new'.value.Ok()
    case Suspends(w, why) => why != Bandwidth
    case Unsuspends(w, why) => why != Bandwidth
    case _ => true
  }

  /** The event updates the buckets, and a limit that was raised by hand overflows. */
  predicate Overflowing(b: Bufferevent, event: Event)
    reads b
  {
    match event
    case Looks(w, maxSingle, group, tick) => b.cfg.Some? && b.Overflows(tick)
    case Refills(tick) => b.cfg.Some? && b.Overflows(tick)
    case _ => false
  }

  /** The configuration that the events leave. */
  function Configured(events: seq<Event>): Option<Cfg> {
    if events == [] then None
    else
      var e := events[|events| - 1];
      if e.Configures? && (e.new'.Some? ==> e.new'.value.Ok()) then e.new' else Configured(events[..|events| - 1])
  }

  /** Does the user want this direction after the events? */
  predicate Wanted(events: seq<Event>, w: Way) {
    events != [] &&
    var e := events[|events| - 1];
    if e == Event.Enables(w) then true else if e == Event.Disables(w) then false else Wanted(events[..|events| - 1], w)
  }

  /** The reasons other than its own bucket for which the events leave a direction suspended. */
  function Reasons(events: seq<Event>, w: Way): set<Reason> {
    if events == [] then {}
    else Reason1(events[|events| - 1], w, Reasons(events[..|events| - 1], w))
  }

  function Reason1(e: Event, w: Way, before: set<Reason>): set<Reason> {
    match e
    case Suspends(x, why) => if x == w && why != Bandwidth then before + {why} else before
    case Unsuspends(x, why) => if x == w && why != Bandwidth then before - {why} else before
    case Looks(x, _, group, _) => if x == w && group.GroupSuspended? then before + {GroupBandwidth} else before
    case _ => before
  }

  /** Every event keeps the invariant, but for the overflow. */
  method Handle(b: Bufferevent, event: Event)
    requires b.Valid() && Possible(b, event)
    modifies b
    ensures b.Valid() <==> !old(Overflowing(b, event))
    ensures b.cfg == if event.Configures? then event.new' else old(b.cfg)
    ensures forall w :: b.Of(w).enabled ==
              if event == Event.Enables(w) then true
              else if event == Event.Disables(w) then false else old(b.Of(w)).enabled
    ensures forall w ::
              b.Of(w).suspended - {Bandwidth} == Reason1(event, w, old(b.Of(w)).suspended - {Bandwidth})
    ensures event.Decrements? && b.cfg.Some? ==> b.Of(event.w).limit == old(b.Of(event.w)).limit - event.bytes
    ensures event.Adjusts? ==> b.Of(event.w).limit == old(b.Of(event.w)).limit - event.decr
    ensures event.Refills? || (event.Looks? && b.cfg.Some?) ==>
              forall w :: Topped(old(b.Of(w)).limit, b.cfg.value.Of(w), Elapsed(old(b.lastUpdated), event.tick),
                                 b.Of(w).limit)
  {
    hide Topped, Elapsed, Sinks, Stays, FairShare, Clamped, Bufferevent.Overflows, Bufferevent.Watched;
    match event
    case Decrements(w, bytes) => b.DecrementBuckets(w, bytes);
    case Adjusts(w, decr) => b.DecrementLimit(w, decr);
    case Looks(w, maxSingle, group, tick) => var m := b.GetMax(w, maxSingle, group, tick);
    case Refills(tick) => b.RefillCallback(tick);
    case Configures(new', tick) => b.SetRateLimit(new', tick);
    case Suspends(w, why) => b.Suspend(w, why);
    case Unsuspends(w, why) => b.Unsuspend(w, why);
    case Enables(w) => b.Enable(w);
    case Disables(w) => b.Disable(w);
  }

  /** After any events, up to the first overflow: a direction that is suspended for bandwidth will be
      looked at by the timer, an empty bucket suspends its direction, and be_ops serves a direction just
      when it is enabled and nothing suspends it. */
  method Run(events: seq<Event>) returns (b: Bufferevent, overflow: bool)
    ensures fresh(b)
    ensures !overflow ==> forall w :: Bandwidth in b.Of(w).suspended ==> b.timer
    ensures !overflow ==> forall w :: b.cfg.Some? && b.Of(w).limit <= 0 ==> Bandwidth in b.Of(w).suspended
    ensures !overflow ==> forall w :: b.Of(w).active <==> b.Of(w).enabled && b.Of(w).suspended == {}
    ensures !overflow ==> b.cfg == Configured(events) && forall w :: b.Of(w).enabled <==> Wanted(events, w)
    ensures !overflow ==> forall w :: b.Of(w).suspended - {Bandwidth} == Reasons(events, w)
    ensures overflow <==> !b.Valid()
  {
    b := new Bufferevent();
    assert events[..0] == [];
    for i := 0 to |events|
      invariant fresh(b) && b.Valid()
      invariant b.cfg == Configured(events[..i]) && forall w :: b.Of(w).enabled <==> Wanted(events[..i], w)
      invariant forall w :: b.Of(w).suspended - {Bandwidth} == Reasons(events[..i], w)
    {
      assert events[..i + 1][..i] == events[..i];
      if Possible(b, events[i]) {
        overflow := Overflowing(b, events[i]);
        Handle(b, events[i]);
        if overflow {
          return;
        }
      }
    }
    overflow := false;
    assert events[..|events|] == events;
  }
}
