/** A rate limit group and the threads that use its members, as a state machine over the steps that each
    thread takes as one. The lock of a bufferevent is taken before the lock of the group; who has the
    group's lock only tries those of the members, and goes on when a try fails. */
module RateGroup {
  import opened Basics
  import opened RateLimit
  import TokenBucket

  type Bev = nat
  type Thread = nat

  /** The bit BEV_SUSPEND_BW_GROUP of a bufferevent, in one direction. */
  datatype Mark = Mark(b: Bev, w: Way)

  /** What a thread does once its walk over the members is done. */
  datatype Then = Home | Back(b: Bev) | Refill(todo: seq<Way>)

  /** Where a thread is. Locked: it has the lock of a bufferevent. Joining, Leaving: the same, with the
      marks that it has to set or clear. Walking, Refilling: it has the lock of the group. */
  datatype Place =
    | Idle
    | Locked(b: Bev)
    | Joining(b: Bev, flags: set<Way>)
    | Leaving(b: Bev, flags: set<Way>)
    | Walking(w: Way, wake: bool, todo: seq<Bev>, again: bool, next: Then)
    | Refilling(rest: seq<Way>)
  {
    /** The bufferevent whose lock the thread has. */
    function Holds(): Option<Bev> {
      match this
      case Locked(b) => Some(b)
      case Joining(b, _) => Some(b)
      case Leaving(b, _) => Some(b)
      case Walking(_, _, _, _, Back(b)) => Some(b)
      case _ => None
    }

    predicate InGroup() { Walking? || Refilling? }
  }

  ghost predicate Distinct(l: seq<Bev>) { forall i, j :: 0 <= i < j < |l| ==> l[i] != l[j] }

  /** lock, owners: who has the lock of the group, and those of the bufferevents.
      promised: the marks that a thread that joins has still to set.
      readRate, writeRate, share: the configuration and the least share that was asked for; minShare is what the
      rates leave of it. zero: it has been nothing at some time. */
  datatype State = State(
    members: seq<Bev>, suspended: set<Way>, pending: set<Way>, readLimit: int, writeLimit: int, minShare: nat,
    lock: Option<Thread>, owners: map<Bev, Thread>, places: map<Thread, Place>,
    marks: set<Mark>, promised: set<Mark>, readRate: nat, writeRate: nat, share: nat, zero: bool)
  {
    function At(t: Thread): Place { if t in places then places[t] else Idle }

    function Limit(w: Way): int { if w == Read then readLimit else writeLimit }

    function SetLimit(w: Way, l: int): State { if w == Read then this.(readLimit := l) else this.(writeLimit := l) }

    function Go(t: Thread, p: Place): State { this.(places := places[t := p]) }

    /** A walk wakes the members up in this direction. */
    predicate Waking(w: Way) {
      lock.Some? && At(lock.value).Walking? && At(lock.value).wake && At(lock.value).w == w
    }

    /** A member that is suspended has someone to wake it up: the group is suspended itself, it has a
        wake-up to do again, or the walk is under way, and has not come to it or will be done again. */
    ghost predicate Justified(m: Mark) {
      m in marks + promised && m.b in members ==>
        if Waking(m.w) then m.b in At(lock.value).todo || At(lock.value).again
        else m.w in suspended || m.w in pending
    }

    ghost predicate Owned(b: Bev) { b in owners ==> At(owners[b]).Holds() == Some(b) }

    ghost predicate Honest(t: Thread) {
      && (At(t).Holds().Some? ==> At(t).Holds().value in owners && owners[At(t).Holds().value] == t)
      && (At(t).InGroup() <==> lock == Some(t))
    }

    /** A promise is kept by the thread that has the lock of the bufferevent. */
    ghost predicate Kept(m: Mark) {
      m in promised ==> m.b in owners && At(owners[m.b]).Joining? && m.w in At(owners[m.b]).flags
    }

    /** Only members are marked, and those whose marks a thread is about to clear. */
    ghost predicate Tidy(m: Mark) {
      m in marks ==>
        m.b in members || (m.b in owners && At(owners[m.b]).Leaving? && m.w in At(owners[m.b]).flags)
    }

    /** The group is suspended while the members are being suspended, and is not while they are woken up;
        one that joins is a member. */
    ghost predicate Steady(t: Thread) {
      && (At(t).Walking? ==> (At(t).wake <==> At(t).w !in suspended) && forall b <- At(t).todo :: b in members)
      && (At(t).Joining? ==> At(t).b in members && forall w <- At(t).flags :: Mark(At(t).b, w) in promised)
    }

    /** An empty bucket suspends the group, unless a member's share may be nothing. */
    ghost predicate Dry(w: Way) {
      (!zero && Limit(w) <= 0 ==> w in suspended) && !(w in suspended && w in pending)
    }

    ghost predicate Sound() { Wired() && Dry(Read) && Dry(Write) && (!zero ==> minShare > 0) }

    ghost predicate Wired() {
      && Distinct(members)
      && (forall b :: Owned(b))
      && (forall t :: Honest(t))
      && (forall t :: Steady(t))
      && (forall m :: Kept(m))
      && (forall m :: Tidy(m))
      && (forall m :: Justified(m))
    }
  }

  /** BEV_LOCK, by a thread that has no lock. */
  function Take(s: State, t: Thread, b: Bev): State { s.(owners := s.owners[b := t]).Go(t, Locked(b)) }

  lemma TakeSound(s: State, t: Thread, b: Bev)
    requires s.Sound() && s.At(t).Idle? && b !in s.owners
    ensures Take(s, t, b).Sound()
  {
    var n := Take(s, t, b);
    assert s.Honest(t);
    forall x ensures n.Owned(x) { assert s.Owned(x); }
    forall x ensures n.Honest(x) { assert s.Honest(x); }
    forall x ensures n.Steady(x) { assert s.Steady(x); }
    forall m ensures n.Kept(m) { assert s.Kept(m); }
    forall m ensures n.Tidy(m) { assert s.Tidy(m); }
    forall m ensures n.Justified(m) { assert s.Justified(m); }
  }

  /** BEV_UNLOCK */
  function Release(s: State, t: Thread): State
    requires s.At(t).Locked?
  {
    s.(owners := s.owners - {s.At(t).b}).Go(t, Idle)
  }

  lemma ReleaseSound(s: State, t: Thread)
    requires s.Sound() && s.At(t).Locked?
    ensures Release(s, t).Sound()
  {
    var n := Release(s, t);
    assert s.Honest(t);
    forall x ensures n.Owned(x) { assert s.Owned(x); }
    forall x ensures n.Honest(x) { assert s.Honest(x); }
    forall x ensures n.Steady(x) { assert s.Steady(x); }
    forall m ensures n.Kept(m) { assert s.Kept(m); }
    forall m ensures n.Tidy(m) { assert s.Tidy(m); }
    forall m ensures n.Justified(m) { assert s.Justified(m); }
  }

  /** Reading comes first. */
  function First(flags: set<Way>): (w: Way)
    requires flags != {}
    ensures w in flags
  {
    if Read in flags then Read else
      assert Write in flags by {
        var x :| x in flags;
        assert x.Read? || x.Write?;
      }
      Write
  }

  function Promises(b: Bev, flags: set<Way>): set<Mark> { set w | w in flags :: Mark(b, w) }

  /** bufferevent_add_to_rate_limit_group, up to the end of its part under the lock of the group. */
  function Join(s: State, t: Thread): State
    requires s.At(t).Locked?
  {
    var b := s.At(t).b;
    s.(members := [b] + s.members, promised := s.promised + Promises(b, s.suspended)).Go(t, Joining(b, s.suspended))
  }

  lemma JoinSound(s: State, t: Thread)
    requires s.Sound() && s.At(t).Locked? && s.At(t).b !in s.members && s.lock.None?
    ensures Join(s, t).Sound()
  {
    var n := Join(s, t);
    assert s.Honest(t);
    forall x ensures n.Owned(x) { assert s.Owned(x); }
    forall x ensures n.Honest(x) { assert s.Honest(x); }
    forall x ensures n.Steady(x) { assert s.Steady(x); }
    forall m ensures n.Kept(m) { assert s.Kept(m); }
    forall m ensures n.Tidy(m) { assert s.Tidy(m); }
    forall m ensures n.Justified(m) { assert s.Justified(m) && s.Tidy(m) && s.Kept(m); }
  }

  /** The rest of it: the mark of one direction, reading first. */
  function SetMark(s: State, t: Thread): State
    requires s.At(t).Joining?
  {
    var Joining(b, flags) := s.At(t);
    if flags == {} then s.Go(t, Locked(b))
    else
      var w := First(flags);
      s.(marks := s.marks + {Mark(b, w)}, promised := s.promised - {Mark(b, w)}).Go(t, Joining(b, flags - {w}))
  }

  lemma SetMarkSound(s: State, t: Thread)
    requires s.Sound() && s.At(t).Joining?
    ensures SetMark(s, t).Sound()
  {
    var n := SetMark(s, t);
    assert s.Honest(t);
    forall x ensures n.Owned(x) { assert s.Owned(x); }
    forall x ensures n.Honest(x) { assert s.Honest(x); }
    forall x ensures n.Steady(x) { assert s.Steady(x) && s.Honest(x); }
    forall m ensures n.Kept(m) { assert s.Kept(m) && m == Mark(m.b, m.w) && s.Owned(m.b); }
    forall m ensures n.Tidy(m) { assert s.Tidy(m) && s.Steady(t) && s.Owned(m.b); }
    forall m ensures n.Justified(m) { assert s.Justified(m) && s.Steady(t); }
  }

  /** bufferevent_remove_from_rate_limit_group, up to the end of its part under the lock of the group. */
  function Leave(s: State, t: Thread, i: nat): State
    requires s.At(t).Locked? && i < |s.members|
  {
    s.(members := s.members[..i] + s.members[i + 1..]).Go(t, Leaving(s.At(t).b, {Read, Write}))
  }

  lemma Without(l: seq<Bev>, i: nat)
    requires Distinct(l) && i < |l|
    ensures Distinct(l[..i] + l[i + 1..])
    ensures forall b :: b in l[..i] + l[i + 1..] <==> b in l && b != l[i]
  {
    var m := l[..i] + l[i + 1..];
    forall b | b in l && b != l[i] ensures b in m {
      var k :| 0 <= k < |l| && l[k] == b;
      assert m[if k < i then k else k - 1] == b;
    }
  }

  lemma LeaveSound(s: State, t: Thread, i: nat)
    requires s.Sound() && s.At(t).Locked? && s.lock.None?
    requires i < |s.members| && s.members[i] == s.At(t).b
    ensures Leave(s, t, i).Sound()
  {
    var n := Leave(s, t, i);
    assert s.Honest(t);
    Without(s.members, i);
    forall x ensures n.Owned(x) { assert s.Owned(x); }
    forall x ensures n.Honest(x) { assert s.Honest(x); }
    forall x ensures n.Steady(x) { assert s.Steady(x) && s.Honest(x); }
    forall m ensures n.Kept(m) { assert s.Kept(m); }
    forall m ensures n.Tidy(m) { assert s.Tidy(m) && (m.w == Read || m.w == Write); }
    forall m ensures n.Justified(m) { assert s.Justified(m); }
  }

  function ClearMark(s: State, t: Thread): State
    requires s.At(t).Leaving?
  {
    var Leaving(b, flags) := s.At(t);
    if flags == {} then s.Go(t, Locked(b))
    else
      var w := First(flags);
      s.(marks := s.marks - {Mark(b, w)}).Go(t, Leaving(b, flags - {w}))
  }

  lemma ClearMarkSound(s: State, t: Thread)
    requires s.Sound() && s.At(t).Leaving?
    ensures ClearMark(s, t).Sound()
  {
    var n := ClearMark(s, t);
    assert s.Honest(t);
    forall x ensures n.Owned(x) { assert s.Owned(x); }
    forall x ensures n.Honest(x) { assert s.Honest(x); }
    forall x ensures n.Steady(x) { assert s.Steady(x); }
    forall m ensures n.Kept(m) { assert s.Kept(m); }
    forall m ensures n.Tidy(m) { assert s.Tidy(m) && m == Mark(m.b, m.w) && s.Owned(m.b); }
    forall m ensures n.Justified(m) { assert s.Justified(m); }
  }

  /** bufferevent_get_rlim_max_: a member of a group that is suspended finds out. */
  function Look(s: State, t: Thread, w: Way): State
    requires s.At(t).Locked?
  {
    if w in s.suspended then s.(marks := s.marks + {Mark(s.At(t).b, w)}) else s
  }

  lemma LookSound(s: State, t: Thread, w: Way)
    requires s.Sound() && s.At(t).Locked? && s.At(t).b in s.members && s.lock.None?
    ensures Look(s, t, w).Sound()
  {
    var n := Look(s, t, w);
    assert s.Honest(t);
    forall x ensures n.Owned(x) { assert s.Owned(x); }
    forall x ensures n.Honest(x) { assert s.Honest(x); }
    forall x ensures n.Steady(x) { assert s.Steady(x); }
    forall m ensures n.Kept(m) { assert s.Kept(m); }
    forall m ensures n.Tidy(m) { assert s.Tidy(m); }
    forall m ensures n.Justified(m) { assert s.Justified(m); }
  }

  /** bev_group_suspend_reading_ and bev_group_suspend_writing_ set out on their walk. */
  function Suspending(s: State, t: Thread, w: Way, next: Then): State {
    s.(suspended := s.suspended + {w}, pending := s.pending - {w}, lock := Some(t))
     .Go(t, Walking(w, false, s.members, false, next))
  }

  /** The members in the order of FOREACH_RANDOM_ORDER, from the one that was drawn. */
  function Order(members: seq<Bev>, first: nat): (order: seq<Bev>)
    requires first <= |members|
    ensures forall b :: b in members <==> b in order
  {
    var order := members[first..] + members[..first];
    assert members == members[..first] + members[first..];
    order
  }

  /** bev_group_unsuspend_reading_ and bev_group_unsuspend_writing_ set out. */
  function WakingUp(s: State, t: Thread, w: Way, first: nat, next: Then): State
    requires first <= |s.members|
  {
    s.(suspended := s.suspended - {w}, lock := Some(t)).Go(t, Walking(w, true, Order(s.members, first), false, next))
  }

  /** The thread can have the lock of the group, and will go on as it says. */
  ghost predicate Enters(s: State, t: Thread, next: Then) {
    match next
    case Home => s.At(t).Idle? && s.lock.None?
    case Back(b) => s.At(t) == Locked(b) && s.lock.None?
    case Refill(_) => s.At(t).Refilling?
  }

  lemma SuspendingSound(s: State, t: Thread, w: Way, next: Then)
    requires s.Wired() && s.Dry(Reverse(w)) && Enters(s, t, next) && (!s.zero ==> s.minShare > 0)
    ensures Suspending(s, t, w, next).Sound()
  {
    var n := Suspending(s, t, w, next);
    assert s.Honest(t);
    forall x ensures n.Owned(x) { assert s.Owned(x); }
    forall x ensures n.Honest(x) { assert s.Honest(x); }
    forall x ensures n.Steady(x) { assert s.Steady(x) && s.Honest(x); }
    forall m ensures n.Kept(m) { assert s.Kept(m); }
    forall m ensures n.Tidy(m) { assert s.Tidy(m); }
    forall m ensures n.Justified(m) { assert s.Justified(m); }
  }

  lemma WakingUpSound(s: State, t: Thread, w: Way, first: nat, next: Then)
    requires s.Wired() && s.Dry(Reverse(w)) && Enters(s, t, next) && first <= |s.members|
    requires !s.zero ==> s.Limit(w) > 0 && s.minShare > 0
    ensures WakingUp(s, t, w, first, next).Sound()
  {
    var n := WakingUp(s, t, w, first, next);
    assert s.Honest(t);
    forall x ensures n.Owned(x) { assert s.Owned(x); }
    forall x ensures n.Honest(x) { assert s.Honest(x); }
    forall x ensures n.Steady(x) { assert s.Steady(x) && s.Honest(x); }
    forall m ensures n.Kept(m) { assert s.Kept(m); }
    forall m ensures n.Tidy(m) { assert s.Tidy(m); }
    forall m ensures n.Justified(m) { assert s.Justified(m); }
  }

  /** One member on the walk: if its lock can be had, it is suspended or woken up; if not, a wake-up will
      have to be done again. */
  function WalkOn(s: State, t: Thread): State
    requires s.At(t).Walking? && s.At(t).todo != []
  {
    var p := s.At(t);
    var b := p.todo[0];
    if b !in s.owners || s.owners[b] == t then
      s.(marks := if p.wake then s.marks - {Mark(b, p.w)} else s.marks + {Mark(b, p.w)}).Go(t, p.(todo := p.todo[1..]))
    else
      s.Go(t, p.(todo := p.todo[1..], again := p.again || p.wake))
  }

  lemma WalkOnJustified(s: State, t: Thread, m: Mark)
    requires s.Honest(t) && s.Steady(t) && s.Justified(m) && s.Kept(m) && s.At(t).Walking? && s.At(t).todo != []
    ensures WalkOn(s, t).Justified(m)
  {
    var p := s.At(t);
    assert p.todo == [p.todo[0]] + p.todo[1..] && m == Mark(m.b, m.w);
  }

  lemma WalkOnSound(s: State, t: Thread)
    requires s.Sound() && s.At(t).Walking? && s.At(t).todo != []
    ensures WalkOn(s, t).Sound()
  {
    hide State.Justified;
    var n := WalkOn(s, t);
    assert s.Honest(t) && s.Steady(t);
    var p := s.At(t);
    assert p.todo == [p.todo[0]] + p.todo[1..];
    forall x ensures n.Owned(x) { assert s.Owned(x); }
    forall x ensures n.Honest(x) { assert s.Honest(x); }
    forall x ensures n.Steady(x) { assert s.Steady(x); }
    forall m ensures n.Kept(m) { assert s.Kept(m); }
    forall m ensures n.Tidy(m) { assert s.Tidy(m) && m == Mark(m.b, m.w); }
    forall m ensures n.Justified(m) {
      assert s.Justified(m) && s.Kept(m);
      WalkOnJustified(s, t, m);
    }
  }

  /** The end of the walk. */
  function WalkEnd(s: State, t: Thread): State
    requires s.At(t).Walking?
  {
    var Walking(w, wake, todo, again, next) := s.At(t);
    var n := if !wake then s else s.(pending := if again then s.pending + {w} else s.pending - {w});
    match next
    case Home => n.(lock := None).Go(t, Idle)
    case Back(b) => n.(lock := None).Go(t, Locked(b))
    case Refill(rest) => n.Go(t, Refilling(rest))
  }

  lemma WalkEndSound(s: State, t: Thread)
    requires s.Sound() && s.At(t).Walking? && s.At(t).todo == []
    ensures WalkEnd(s, t).Sound()
  {
    WalkEndWired(s, t);
    hide State.Wired;
    WalkEndDry(s, t);
  }

  lemma WalkEndDry(s: State, t: Thread)
    requires s.Sound() && s.At(t).Walking? && s.At(t).todo == []
    ensures var n := WalkEnd(s, t); n.Dry(Read) && n.Dry(Write) && (!n.zero ==> n.minShare > 0)
  {
    assert s.Steady(t);
  }

  lemma WalkEndJustified(s: State, t: Thread, m: Mark)
    requires s.Honest(t) && s.Steady(t) && s.Justified(m) && s.At(t).Walking? && s.At(t).todo == []
    ensures WalkEnd(s, t).Justified(m)
  {
  }

  lemma WalkEndWired(s: State, t: Thread)
    requires s.Wired() && s.At(t).Walking? && s.At(t).todo == []
    ensures WalkEnd(s, t).Wired()
  {
    hide State.Justified;
    var n := WalkEnd(s, t);
    assert s.Honest(t) && s.Steady(t);
    forall x ensures n.Owned(x) { assert s.Owned(x); }
    forall x ensures n.Honest(x) { assert s.Honest(x); }
    forall x ensures n.Steady(x) { assert s.Steady(x) && s.Honest(x); }
    forall m ensures n.Kept(m) { assert s.Kept(m); }
    forall m ensures n.Tidy(m) { assert s.Tidy(m); }
    forall m ensures n.Justified(m) {
      assert s.Justified(m);
      WalkEndJustified(s, t, m);
    }
  }

  lemma LimitWired(s: State, w: Way, l: int)
    requires s.Sound()
    ensures s.SetLimit(w, l).Wired() && s.SetLimit(w, l).Dry(Reverse(w))
  {
    var n := s.SetLimit(w, l);
    forall x ensures n.Owned(x) { assert s.Owned(x); }
    forall x ensures n.Honest(x) { assert s.Honest(x); }
    forall x ensures n.Steady(x) { assert s.Steady(x); }
    forall m ensures n.Kept(m) { assert s.Kept(m); }
    forall m ensures n.Tidy(m) { assert s.Tidy(m); }
    forall m ensures n.Justified(m) { assert s.Justified(m); }
  }

  /** The part of bufferevent_decrement_read_buckets_ and of its twin that is about the group. */
  function Spend(s: State, t: Thread, w: Way, bytes: int, first: nat): State
    requires s.At(t).Locked? && first <= |s.members|
  {
    var n := s.SetLimit(w, s.Limit(w) - bytes);
    if n.Limit(w) <= 0 then Suspending(n, t, w, Back(s.At(t).b))
    else if w in s.suspended then WakingUp(n, t, w, first, Back(s.At(t).b))
    else n
  }

  lemma SpendSound(s: State, t: Thread, w: Way, bytes: int, first: nat)
    requires s.Sound() && s.At(t).Locked? && s.lock.None? && first <= |s.members|
    ensures Spend(s, t, w, bytes, first).Sound()
  {
    var n := s.SetLimit(w, s.Limit(w) - bytes);
    LimitWired(s, w, n.Limit(w));
    if n.Limit(w) <= 0 {
      SuspendingSound(n, t, w, Back(s.At(t).b));
    } else if w in s.suspended {
      WakingUpSound(n, t, w, first, Back(s.At(t).b));
    }
  }

  /** bufferevent_rate_limit_group_decrement_read and its twin; a negative number refills. */
  function Adjust(s: State, t: Thread, w: Way, decr: int, first: nat): State
    requires first <= |s.members|
  {
    var n := s.SetLimit(w, s.Limit(w) - decr);
    if s.Limit(w) > 0 && n.Limit(w) <= 0 then Suspending(n, t, w, Home)
    else if s.Limit(w) <= 0 && n.Limit(w) > 0 then WakingUp(n, t, w, first, Home)
    else n
  }

  lemma AdjustSound(s: State, t: Thread, w: Way, decr: int, first: nat)
    requires s.Sound() && s.At(t).Idle? && s.lock.None? && first <= |s.members|
    ensures Adjust(s, t, w, decr, first).Sound()
  {
    var n := s.SetLimit(w, s.Limit(w) - decr);
    LimitWired(s, w, n.Limit(w));
    if s.Limit(w) > 0 && n.Limit(w) <= 0 {
      SuspendingSound(n, t, w, Home);
    } else if s.Limit(w) <= 0 && n.Limit(w) > 0 {
      WakingUpSound(n, t, w, first, Home);
    }
  }

  /** bev_group_refill_callback_, up to its choices: the buckets are filled up by some amounts. */
  function Tick(s: State, t: Thread, read: nat, write: nat): State {
    s.(readLimit := s.readLimit + read, writeLimit := s.writeLimit + write, lock := Some(t))
     .Go(t, Refilling([Read, Write]))
  }

  lemma TickSound(s: State, t: Thread, read: nat, write: nat)
    requires s.Sound() && s.At(t).Idle? && s.lock.None?
    ensures Tick(s, t, read, write).Sound()
  {
    var n := Tick(s, t, read, write);
    assert s.Honest(t);
    forall x ensures n.Owned(x) { assert s.Owned(x); }
    forall x ensures n.Honest(x) { assert s.Honest(x); }
    forall x ensures n.Steady(x) { assert s.Steady(x); }
    forall m ensures n.Kept(m) { assert s.Kept(m); }
    forall m ensures n.Tidy(m) { assert s.Tidy(m); }
    forall m ensures n.Justified(m) { assert s.Justified(m); }
  }

  /** Its choice for one direction, and its end. */
  function RefillOn(s: State, t: Thread, first: nat): State
    requires s.At(t).Refilling? && first <= |s.members|
  {
    var rest := s.At(t).rest;
    if rest == [] then s.(lock := None).Go(t, Idle)
    else
      var w := rest[0];
      if w in s.pending || (w in s.suspended && s.Limit(w) >= s.minShare) then
        WakingUp(s, t, w, first, Refill(rest[1..]))
      else
        s.Go(t, Refilling(rest[1..]))
  }

  lemma RefillOnSound(s: State, t: Thread, first: nat)
    requires s.Sound() && s.At(t).Refilling? && first <= |s.members|
    ensures RefillOn(s, t, first).Sound()
  {
    var n, rest := RefillOn(s, t, first), s.At(t).rest;
    if rest != [] && (rest[0] in s.pending || (rest[0] in s.suspended && s.Limit(rest[0]) >= s.minShare)) {
      match rest[0] {
        case Read => assert s.Dry(Read) && s.Dry(Write);
        case Write => assert s.Dry(Read) && s.Dry(Write);
      }
      WakingUpSound(s, t, rest[0], first, Refill(rest[1..]));
    } else {
      RefillMoves(s, t, n);
    }
  }

  lemma RefillMoves(s: State, t: Thread, n: State)
    requires s.Sound() && s.At(t).Refilling?
    requires (exists rest :: n == s.Go(t, Refilling(rest))) || n == s.(lock := None).Go(t, Idle)
    ensures n.Sound()
  {
    assert s.Honest(t);
    forall x ensures n.Owned(x) { assert s.Owned(x); }
    forall x ensures n.Honest(x) { assert s.Honest(x); }
    forall x ensures n.Steady(x) { assert s.Steady(x); }
    forall m ensures n.Kept(m) { assert s.Kept(m); }
    forall m ensures n.Tidy(m) { assert s.Tidy(m); }
    forall m ensures n.Justified(m) { assert s.Justified(m); }
  }

  function Least(a: int, b: int): int { if a < b then a else b }

  /** bufferevent_rate_limit_group_set_min_share, which takes no lock: no more than a tick's worth. */
  function SetShare(s: State, share: nat): State {
    var m := Least(share, Least(s.readRate, s.writeRate));
    s.(share := share, minShare := m, zero := s.zero || m == 0)
  }

  /** bufferevent_rate_limit_group_set_cfg: the buckets are clipped, and the least share is set anew. */
  function Configure(s: State, read: TokenBucket.Config, write: TokenBucket.Config): State
    requires read.Ok() && write.Ok()
  {
    var n := s.(readRate := read.rate, writeRate := write.rate,
                readLimit := Least(s.readLimit, read.maximum), writeLimit := Least(s.writeLimit, write.maximum));
    SetShare(n, s.share)
  }

  /** Limits that stay empty or not, and another share, change nothing of the protocol. */
  lemma ShareSound(s: State, n: State)
    requires s.Sound() && n == s.(readRate := n.readRate, writeRate := n.writeRate, share := n.share,
                                  minShare := n.minShare, zero := n.zero, readLimit := n.readLimit,
                                  writeLimit := n.writeLimit)
    requires (s.readLimit > 0 ==> n.readLimit > 0) && (s.writeLimit > 0 ==> n.writeLimit > 0)
    requires (s.zero ==> n.zero) && (!n.zero ==> n.minShare > 0)
    ensures n.Sound()
  {
    forall x ensures n.Owned(x) { assert s.Owned(x); }
    forall x ensures n.Honest(x) { assert s.Honest(x); }
    forall x ensures n.Steady(x) { assert s.Steady(x); }
    forall m ensures n.Kept(m) { assert s.Kept(m); }
    forall m ensures n.Tidy(m) { assert s.Tidy(m); }
    forall m ensures n.Justified(m) { assert s.Justified(m); }
  }

  datatype Step =
    | Takes(t: Thread, b: Bev)
    | Releases(t: Thread)
    | Joins(t: Thread)
    | SetsMark(t: Thread)
    | Leaves(t: Thread, i: nat)
    | ClearsMark(t: Thread)
    | Looks(t: Thread, w: Way)
    | Spends(t: Thread, w: Way, bytes: int, first: nat)
    | Adjusts(t: Thread, w: Way, decr: int, first: nat)
    | Ticks(t: Thread, read: nat, write: nat)
    | RefillsOn(t: Thread, first: nat)
    | WalksOn(t: Thread)
    | EndsWalk(t: Thread)
    | Configures(t: Thread, forRead: TokenBucket.Config, forWrite: TokenBucket.Config)
    | SetsShare(share: nat)

  /** The thread is at the step, and has the locks that it takes, or can take them. */
  predicate Enabled(s: State, step: Step) {
    match step
    case Takes(t, b) => s.At(t).Idle? && b !in s.owners
    case Releases(t) => s.At(t).Locked?
    case Joins(t) => s.At(t).Locked? && s.At(t).b !in s.members && s.lock.None?
    case SetsMark(t) => s.At(t).Joining?
    case Leaves(t, i) => s.At(t).Locked? && s.lock.None? && i < |s.members| && s.members[i] == s.At(t).b
    case ClearsMark(t) => s.At(t).Leaving?
    case Looks(t, w) => s.At(t).Locked? && s.At(t).b in s.members && s.lock.None?
    case Spends(t, w, bytes, first) => s.At(t).Locked? && s.At(t).b in s.members && s.lock.None? && first < |s.members|
    case Adjusts(t, w, decr, first) => s.At(t).Idle? && s.lock.None? && Drawn(s.members, first)
    case Ticks(t, read, write) => s.At(t).Idle? && s.lock.None?
    case RefillsOn(t, first) => s.At(t).Refilling? && Drawn(s.members, first)
    case WalksOn(t) => s.At(t).Walking? && s.At(t).todo != []
    case EndsWalk(t) => s.At(t).Walking? && s.At(t).todo == []
    case Configures(t, forRead, forWrite) => s.At(t).Idle? && s.lock.None? && forRead.Ok() && forWrite.Ok()
    case SetsShare(share) => true
  }

  /** What bev_group_random_element_ can draw. */
  predicate Drawn(members: seq<Bev>, first: nat) { first < |members| || (members == [] && first == 0) }

  function Next(s: State, step: Step): State
    requires Enabled(s, step)
  {
    match step
    case Takes(t, b) => Take(s, t, b)
    case Releases(t) => Release(s, t)
    case Joins(t) => Join(s, t)
    case SetsMark(t) => SetMark(s, t)
    case Leaves(t, i) => Leave(s, t, i)
    case ClearsMark(t) => ClearMark(s, t)
    case Looks(t, w) => Look(s, t, w)
    case Spends(t, w, bytes, first) => Spend(s, t, w, bytes, first)
    case Adjusts(t, w, decr, first) => Adjust(s, t, w, decr, first)
    case Ticks(t, read, write) => Tick(s, t, read, write)
    case RefillsOn(t, first) => RefillOn(s, t, first)
    case WalksOn(t) => WalkOn(s, t)
    case EndsWalk(t) => WalkEnd(s, t)
    case Configures(t, forRead, forWrite) => Configure(s, forRead, forWrite)
    case SetsShare(share) => SetShare(s, share)
  }

  lemma NextSound(s: State, step: Step)
    requires s.Sound() && Enabled(s, step)
    ensures Next(s, step).Sound()
  {
    hide State.Sound;
    match step
    case Takes(t, b) => TakeSound(s, t, b);
    case Releases(t) => ReleaseSound(s, t);
    case Joins(t) => JoinSound(s, t);
    case SetsMark(t) => SetMarkSound(s, t);
    case Leaves(t, i) => LeaveSound(s, t, i);
    case ClearsMark(t) => ClearMarkSound(s, t);
    case Looks(t, w) => LookSound(s, t, w);
    case Spends(t, w, bytes, first) => SpendSound(s, t, w, bytes, first);
    case Adjusts(t, w, decr, first) => AdjustSound(s, t, w, decr, first);
    case Ticks(t, read, write) => TickSound(s, t, read, write);
    case RefillsOn(t, first) => RefillOnSound(s, t, first);
    case WalksOn(t) => WalkOnSound(s, t);
    case EndsWalk(t) => WalkEndSound(s, t);
    case Configures(t, forRead, forWrite) => ShareSound(s, Configure(s, forRead, forWrite));
    case SetsShare(share) => ShareSound(s, SetShare(s, share));
  }

  lemma NextPositive(s: State, step: Step)
    requires Enabled(s, step)
    ensures Positive(s) && !(step.SetsShare? && step.share == 0) ==>
              Positive(Next(s, step)) && (!s.zero ==> !Next(s, step).zero)
  {
  }

  /** The rates and the share that was asked for are positive. */
  predicate Positive(s: State) { s.readRate > 0 && s.writeRate > 0 && s.share > 0 }

  /** bufferevent_rate_limit_group_new: both buckets start with one tick's worth. */
  function Fresh(readRate: nat, writeRate: nat, share: nat): State {
    SetShare(State([], {}, {}, readRate, writeRate, 0, None, map[], map[], {}, {}, readRate, writeRate, 0, false),
             share)
  }

  /** Nobody asks for a least share of nothing. */
  predicate SharesPositive(steps: seq<Step>) {
    forall i :: 0 <= i < |steps| ==> !(steps[i].SetsShare? && steps[i].share == 0)
  }

  /** The state after some steps of any threads, in any order. */
  predicate Reaches(s: State, steps: seq<Step>)
    decreases |steps|
  {
    steps == [] || (Enabled(s, steps[0]) && Reaches(Next(s, steps[0]), steps[1..]))
  }

  function After(s: State, steps: seq<Step>): State
    requires Reaches(s, steps)
    decreases |steps|
  {
    if steps == [] then s else After(Next(s, steps[0]), steps[1..])
  }

  lemma {:induction false} AfterSound(s: State, steps: seq<Step>)
    requires s.Sound() && Reaches(s, steps)
    ensures After(s, steps).Sound()
    ensures Positive(s) && SharesPositive(steps) && !s.zero ==> !After(s, steps).zero
    decreases |steps|
  {
    if steps != [] {
      NextSound(s, steps[0]);
      NextPositive(s, steps[0]);
      AfterSound(Next(s, steps[0]), steps[1..]);
    }
  }

  /** In every interleaving: a member that is suspended for the group has the group suspended, a wake-up
      pending, or a walk under way that has not come to it or will be done again. Once no one has the
      lock of the group, one of the first two holds. */
  lemma NoLostWakeUp(readRate: nat, writeRate: nat, share: nat, steps: seq<Step>, m: Mark)
    requires readRate > 0 && writeRate > 0
    requires Reaches(Fresh(readRate, writeRate, share), steps)
    requires var s := After(Fresh(readRate, writeRate, share), steps); m in s.marks && m.b in s.members
    ensures
      var s := After(Fresh(readRate, writeRate, share), steps);
      || m.w in s.suspended || m.w in s.pending
      || (s.lock.Some? && s.Waking(m.w) && (m.b in s.At(s.lock.value).todo || s.At(s.lock.value).again))
  {
    var s := After(Fresh(readRate, writeRate, share), steps);
    assert Fresh(readRate, writeRate, share).Sound();
    AfterSound(Fresh(readRate, writeRate, share), steps);
    assert s.Justified(m);
  }

  /** An empty bucket keeps the group suspended, in every interleaving, if the least share that is asked for
      is at least one byte all the time. */
  lemma EmptySuspends(readRate: nat, writeRate: nat, share: nat, steps: seq<Step>, w: Way)
    requires readRate > 0 && writeRate > 0 && share > 0 && SharesPositive(steps)
    requires Reaches(Fresh(readRate, writeRate, share), steps)
    requires After(Fresh(readRate, writeRate, share), steps).Limit(w) <= 0
    ensures w in After(Fresh(readRate, writeRate, share), steps).suspended
  {
    assert Fresh(readRate, writeRate, share).Sound();
    AfterSound(Fresh(readRate, writeRate, share), steps);
    match w
    case Read =>
    case Write =>
  }

  /** With a share of nothing it need not be so: the refill ends the suspension of a bucket at zero. */
  lemma EmptyUnsuspended()
    ensures
      var steps := [Step.Adjusts(0, Read, 5, 0), EndsWalk(0), Ticks(0, 0, 0), RefillsOn(0, 0)];
      && Reaches(Fresh(5, 5, 0), steps)
      && After(Fresh(5, 5, 0), steps).Limit(Read) == 0 && Read !in After(Fresh(5, 5, 0), steps).suspended
  {
    var a, b, c, d := Step.Adjusts(0, Read, 5, 0), EndsWalk(0), Ticks(0, 0, 0), RefillsOn(0, 0);
    var s := Fresh(5, 5, 0);
    var t := Next(s, a);
    assert Enabled(t, b);
    var u := Next(t, b);
    assert Enabled(u, c);
    var v := Next(u, c);
    assert Enabled(v, d);
    Steps4(s, a, b, c, d);
  }

  lemma Steps4(s: State, a: Step, b: Step, c: Step, d: Step)
    requires Enabled(s, a) && Enabled(Next(s, a), b) && Enabled(Next(Next(s, a), b), c)
    requires Enabled(Next(Next(Next(s, a), b), c), d)
    ensures Reaches(s, [a, b, c, d]) && After(s, [a, b, c, d]) == Next(Next(Next(Next(s, a), b), c), d)
  {
    assert [a, b, c, d][1..] == [b, c, d] && [b, c, d][1..] == [c, d] && [c, d][1..] == [d] && [d][1..] == [];
    var s1, s2, s3 := Next(s, a), Next(Next(s, a), b), Next(Next(Next(s, a), b), c);
    assert Reaches(Next(s3, d), []);
    assert Reaches(s3, [d]) && Reaches(s2, [c, d]) && Reaches(s1, [b, c, d]);
    assert After(s3, [d]) == Next(s3, d);
    assert After(s1, [b, c, d]) == After(s2, [c, d]) == After(s3, [d]);
  }

  /** A walk that wakes the members up and gets every lock leaves no member suspended. */
  lemma AllAwake(s: State, t: Thread, m: Mark)
    requires s.Sound() && s.At(t).Walking? && s.At(t).wake && s.At(t).todo == [] && !s.At(t).again
    requires m.w == s.At(t).w && m.b in s.members
    ensures m !in WalkEnd(s, t).marks
  {
    assert s.Honest(t) && s.Justified(m);
  }

  /** FOREACH_RANDOM_ORDER: two loops that go through the list from the member that was drawn. */
  method ForeachRandomOrder(members: seq<Bev>, which: nat) returns (visited: seq<Bev>)
    requires Drawn(members, which)
    ensures visited == Order(members, which)
    ensures multiset(visited) == multiset(members)
  {
    visited := [];
    var i := which;
    while i < |members|
      invariant which <= i <= |members| && visited == members[which..i]
    {
      visited := visited + [members[i]];
      i := i + 1;
    }
    i := 0;
    while i < |members| && i != which
      invariant i <= which && visited == members[which..] + members[..i]
    {
      visited := visited + [members[i]];
      i := i + 1;
    }
    assert members == members[..which] + members[which..];
  }
}
