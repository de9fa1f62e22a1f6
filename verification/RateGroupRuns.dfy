/** What a rate limit group does over runs of all its threads: who is suspended after a walk, when a refill
    ends a suspension, and that it does so after finitely many ticks. */
module RateGroupRuns {
  import opened Basics
  import opened RateLimit
  import opened RateGroup
  import TokenBucket

  /** A step that t does not take. */
  predicate ByOther(step: Step, t: Thread) { step.SetsShare? || step.t != t }

  /** Nothing that the lock of the group protects has changed. */
  predicate SameGroup(s: State, n: State) {
    && n.lock == s.lock && n.members == s.members && n.suspended == s.suspended && n.pending == s.pending
    && n.readLimit == s.readLimit && n.writeLimit == s.writeLimit
  }

  /** While t has the lock of the group, the others leave the group alone. */
  lemma OtherStep(s: State, t: Thread, step: Step)
    requires s.Sound() && s.lock == Some(t) && Enabled(s, step) && ByOther(step, t)
    ensures SameGroup(s, Next(s, step)) && Next(s, step).At(t) == s.At(t)
    ensures !step.SetsShare? ==> Next(s, step).minShare == s.minShare
  {
    if !step.SetsShare? { assert s.Honest(step.t); }
  }

  // ----- walks

  /** The lock of b can be had by t. */
  predicate CanLock(s: State, t: Thread, b: Bev) { b !in s.owners || s.owners[b] == t }

  /** A step while t walks over the members. */
  predicate OnWalk(step: Step, t: Thread) { step == WalksOn(t) || ByOther(step, t) }

  predicate AllOnWalk(steps: seq<Step>, t: Thread) { forall step <- steps :: OnWalk(step, t) }

  /** At some member, t does not get the lock. */
  predicate Misses(s: State, t: Thread, steps: seq<Step>)
    requires Reaches(s, steps)
    decreases |steps|
  {
    steps != [] &&
    ((steps[0] == WalksOn(t) && !CanLock(s, t, s.At(t).todo[0])) || Misses(Next(s, steps[0]), t, steps[1..]))
  }

  /** The same walk, somewhere else. */
  predicate SameWalk(p: Place, q: Place) {
    p.Walking? && q.Walking? && p.w == q.w && p.wake == q.wake && p.next == q.next
  }

  lemma WalkStep(s: State, t: Thread, step: Step)
    requires s.Sound() && s.At(t).Walking? && Enabled(s, step) && OnWalk(step, t)
    ensures var n := Next(s, step);
      && n.Sound() && SameGroup(s, n) && SameWalk(s.At(t), n.At(t))
      && (step != WalksOn(t) ==> n.At(t) == s.At(t))
      && (step == WalksOn(t) ==> n.At(t).todo == s.At(t).todo[1..])
      && (n.At(t).again <==>
          s.At(t).again || (step == WalksOn(t) && s.At(t).wake && !CanLock(s, t, s.At(t).todo[0])))
  {
    NextSound(s, step);
    assert s.Honest(t);
    if step != WalksOn(t) { OtherStep(s, t, step); }
  }

  /** Nothing of the group changes on a walk, and a wake-up will have to be done again exactly if a lock
      could not be had. */
  lemma {:induction false} Walked(s: State, t: Thread, steps: seq<Step>)
    requires s.Sound() && s.At(t).Walking? && Reaches(s, steps) && AllOnWalk(steps, t)
    ensures var n := After(s, steps);
      && n.Sound() && SameGroup(s, n) && SameWalk(s.At(t), n.At(t))
      && (n.At(t).again <==> s.At(t).again || (s.At(t).wake && Misses(s, t, steps)))
    decreases |steps|
  {
    if steps != [] {
      WalkStep(s, t, steps[0]);
      hide State.Sound;
      Walked(Next(s, steps[0]), t, steps[1..]);
    }
  }

  /** Who is about to clear its marks is no member any more. */
  ghost predicate LeaverOut(s: State, t: Thread) { s.At(t).Leaving? ==> s.At(t).b !in s.members }

  ghost predicate LeaversOut(s: State) { forall t :: LeaverOut(s, t) }

  lemma NextLeaverOut(s: State, step: Step, t: Thread)
    requires s.Honest(t) && (!step.SetsShare? ==> s.Honest(step.t)) && Distinct(s.members)
    requires LeaverOut(s, t) && Enabled(s, step)
    ensures LeaverOut(Next(s, step), t)
  {
    if step.Leaves? {
      Without(s.members, step.i);
    } else if !step.Joins? {
      MembersStay(s, step);
      if ByOther(step, t) { OnlyMoves(s, step, t); } else if Next(s, step).At(t).Leaving? { OnlyLeaves(s, step); }
      hide Next;
    }
  }

  /** What a step may change when it may set out on a walk: not the members, nor any marks or locks of theirs. */
  predicate Sets(s: State, n: State, t: Thread) {
    && n == s.(suspended := n.suspended, pending := n.pending, readLimit := n.readLimit, writeLimit := n.writeLimit,
               lock := n.lock, places := n.places)
    && (n.places == s.places || (n.places == s.places[t := n.At(t)] && n.At(t).Walking?))
  }

  lemma SpendSets(s: State, t: Thread, w: Way, bytes: int, first: nat)
    requires s.At(t).Locked? && first <= |s.members|
    ensures Sets(s, Spend(s, t, w, bytes, first), t)
  {}

  lemma AdjustSets(s: State, t: Thread, w: Way, decr: int, first: nat)
    requires first <= |s.members|
    ensures Sets(s, Adjust(s, t, w, decr, first), t)
  {}

  lemma MembersStay(s: State, step: Step)
    requires Enabled(s, step) && !step.Joins? && !step.Leaves?
    ensures Next(s, step).members == s.members
  {
    hide Spend, Adjust;
    match step
    case Spends(t, w, bytes, first) => SpendSets(s, t, w, bytes, first);
    case Adjusts(t, w, decr, first) => AdjustSets(s, t, w, decr, first);
    case _ =>
  }

  /** A step moves its own thread alone. */
  lemma OnlyMoves(s: State, step: Step, t: Thread)
    requires Enabled(s, step) && ByOther(step, t)
    ensures Next(s, step).At(t) == s.At(t)
  {
    hide Spend, Adjust;
    match step
    case Spends(x, w, bytes, first) => SpendSets(s, x, w, bytes, first);
    case Adjusts(x, w, decr, first) => AdjustSets(s, x, w, decr, first);
    case _ =>
  }

  /** Only a step that leaves starts to clear marks. */
  lemma OnlyLeaves(s: State, step: Step)
    requires Enabled(s, step) && !step.SetsShare? && !step.Leaves? && Next(s, step).At(step.t).Leaving?
    ensures s.At(step.t).Leaving? && Next(s, step).At(step.t).b == s.At(step.t).b
  {
    hide Spend, Adjust;
    match step
    case Spends(x, w, bytes, first) => SpendSets(s, x, w, bytes, first);
    case Adjusts(x, w, decr, first) => AdjustSets(s, x, w, decr, first);
    case _ =>
  }

  /** Marks go only when they are cleared or on a walk. */
  lemma MarksStay(s: State, step: Step)
    requires Enabled(s, step) && !step.ClearsMark? && !step.WalksOn?
    ensures s.marks <= Next(s, step).marks
  {
    hide Spend, Adjust;
    match step
    case Spends(x, w, bytes, first) => SpendSets(s, x, w, bytes, first);
    case Adjusts(x, w, decr, first) => AdjustSets(s, x, w, decr, first);
    case _ =>
  }

  lemma NextLeaversOut(s: State, step: Step)
    requires s.Sound() && LeaversOut(s) && Enabled(s, step)
    ensures LeaversOut(Next(s, step))
  {
    forall t ensures LeaverOut(Next(s, step), t) {
      assert s.Honest(t) && (!step.SetsShare? ==> s.Honest(step.t)) && LeaverOut(s, t);
      hide State.Sound, State.Honest, LeaverOut;
      NextLeaverOut(s, step, t);
    }
  }

  lemma {:induction false} AfterLeaversOut(s: State, steps: seq<Step>)
    requires s.Sound() && LeaversOut(s) && Reaches(s, steps)
    ensures After(s, steps).Sound() && LeaversOut(After(s, steps))
    decreases |steps|
  {
    hide State.Sound, LeaversOut;
    if steps != [] {
      NextSound(s, steps[0]);
      NextLeaversOut(s, steps[0]);
      AfterLeaversOut(Next(s, steps[0]), steps[1..]);
    }
  }

  /** The members on the rest of a walk that suspends, and those that carry the mark. */
  ghost predicate Covered(s: State, t: Thread, b: Bev)
    requires s.At(t).Walking?
  {
    b in s.members && (b in s.At(t).todo || Mark(b, s.At(t).w) in s.marks)
  }

  lemma CoveredStep(s: State, t: Thread, step: Step, b: Bev)
    requires s.Sound() && LeaversOut(s) && s.At(t).Walking? && !s.At(t).wake && Enabled(s, step) && OnWalk(step, t)
    requires Covered(s, t, b) && (step == WalksOn(t) ==> CanLock(s, t, s.At(t).todo[0]))
    requires Next(s, step).At(t).Walking?
    ensures Covered(Next(s, step), t, b)
  {
    WalkStep(s, t, step);
    if step.ClearsMark? { assert LeaverOut(s, step.t); }
    if step == WalksOn(t) {
      assert s.At(t).todo == [s.At(t).todo[0]] + s.At(t).todo[1..];
    } else if !step.SetsShare? {
      assert s.Honest(step.t) && s.Honest(t);
    }
  }

  /** A walk that suspends the members and gets every lock leaves all of them suspended. */
  lemma {:induction false} AllMarked(s: State, t: Thread, steps: seq<Step>, b: Bev)
    requires s.Sound() && LeaversOut(s) && s.At(t).Walking? && !s.At(t).wake && Covered(s, t, b)
    requires Reaches(s, steps) && AllOnWalk(steps, t) && !Misses(s, t, steps)
    requires Enabled(After(s, steps), EndsWalk(t))
    ensures Mark(b, s.At(t).w) in After(s, steps).marks
    decreases |steps|
  {
    if steps != [] {
      WalkStep(s, t, steps[0]);
      NextLeaversOut(s, steps[0]);
      CoveredStep(s, t, steps[0], b);
      hide State.Sound, LeaversOut;
      AllMarked(Next(s, steps[0]), t, steps[1..], b);
    }
  }

  // ----- what suspends, and what ends it

  /** A member that spends decides anew: the group is suspended exactly if the bucket is empty now. */
  lemma SpendDecides(s: State, t: Thread, w: Way, bytes: int, first: nat)
    requires s.Sound() && Enabled(s, Spends(t, w, bytes, first))
    ensures var n := Next(s, Spends(t, w, bytes, first));
      && n.Limit(w) == s.Limit(w) - bytes && n.Limit(Reverse(w)) == s.Limit(Reverse(w))
      && (w in n.suspended <==> s.Limit(w) - bytes <= 0)
      && n.suspended - {w} == s.suspended - {w}
      && (n.At(t).Walking? <==> w in s.suspended || w in n.suspended)
      && (n.At(t).Walking? ==> n.At(t).w == w && forall b | b in s.members :: b in n.At(t).todo)
  {}

  /** From outside, only a change of sign decides anew. */
  lemma AdjustDecides(s: State, t: Thread, w: Way, decr: int, first: nat)
    requires s.Sound() && Enabled(s, Step.Adjusts(t, w, decr, first))
    ensures var n := Next(s, Step.Adjusts(t, w, decr, first));
      && n.Limit(w) == s.Limit(w) - decr && n.Limit(Reverse(w)) == s.Limit(Reverse(w))
      && n.suspended - {w} == s.suspended - {w}
      && (n.At(t).Walking? <==> (s.Limit(w) > 0) != (s.Limit(w) - decr > 0))
      && (n.At(t).Walking? ==> n.At(t).w == w && forall b | b in s.members :: b in n.At(t).todo)
      && (w in n.suspended <==> if n.At(t).Walking? then s.Limit(w) - decr <= 0 else w in s.suspended)
  {}

  lemma SetsOut(s: State, step: Step, b: Bev)
    requires (step.Spends? || step.Adjusts?) && Enabled(s, step) && b in s.members
    requires Next(s, step).At(step.t).Walking? && !Next(s, step).At(step.t).wake
    ensures Covered(Next(s, step), step.t, b) && Next(s, step).At(step.t).w == step.w
  {}

  lemma SuspendsFrom(s: State, step: Step, walk: seq<Step>, b: Bev)
    requires s.Sound() && LeaversOut(s) && (step.Spends? || step.Adjusts?) && Enabled(s, step) && b in s.members
    requires var n := Next(s, step);
      && n.At(step.t).Walking? && !n.At(step.t).wake
      && Reaches(n, walk) && AllOnWalk(walk, step.t) && !Misses(n, step.t, walk)
      && Enabled(After(n, walk), EndsWalk(step.t))
    ensures Mark(b, step.w) in After(Next(s, step), walk).marks
  {
    hide State.Sound, LeaversOut;
    var n := Next(s, step);
    SetsOut(s, step, b);
    hide Next, Enabled, Reaches, After, AllOnWalk, Misses;
    NextSound(s, step);
    NextLeaversOut(s, step);
    AllMarked(n, step.t, walk, b);
  }

  /** In every run, after a step that empties the bucket, and a walk that gets every lock, all members are
      suspended; those that are missed find out when they look at their limit. */
  lemma SuspendsAll(readRate: nat, writeRate: nat, share: nat, past: seq<Step>, step: Step, walk: seq<Step>, b: Bev)
    requires readRate > 0 && writeRate > 0 && Reaches(Fresh(readRate, writeRate, share), past)
    requires
      var s := After(Fresh(readRate, writeRate, share), past);
      && (step.Spends? || step.Adjusts?) && Enabled(s, step) && b in s.members
      && var n := Next(s, step);
      && n.At(step.t).Walking? && !n.At(step.t).wake
      && Reaches(n, walk) && AllOnWalk(walk, step.t) && !Misses(n, step.t, walk)
      && Enabled(After(n, walk), EndsWalk(step.t))
    ensures
      var s := After(Fresh(readRate, writeRate, share), past);
      Mark(b, step.w) in After(Next(s, step), walk).marks
  {
    var start := Fresh(readRate, writeRate, share);
    assert start.Sound();
    assert LeaversOut(start) by { forall t ensures LeaverOut(start, t) {} }
    hide State.Sound, LeaversOut, Next, Enabled, AllOnWalk, Misses;
    AfterLeaversOut(start, past);
    SuspendsFrom(After(start, past), step, walk, b);
  }

  lemma LookMarks(s: State, t: Thread, w: Way)
    requires s.Sound() && Enabled(s, Step.Looks(t, w))
    ensures var n := Next(s, Step.Looks(t, w));
      n == s.(marks := n.marks) &&
      forall m :: m in n.marks <==> m in s.marks || (m == Mark(s.At(t).b, w) && w in s.suspended)
  {}

  /** A step while t joins the group. */
  predicate OnJoin(step: Step, t: Thread) { step == SetsMark(t) || ByOther(step, t) }

  /** t has suspended b, or will do so before it is done. */
  predicate Suspends(s: State, t: Thread, m: Mark) {
    match s.At(t)
    case Joining(b, flags) => b == m.b && (m.w in flags || m in s.marks)
    case Locked(b) => b == m.b && m in s.marks
    case _ => false
  }

  lemma JoinMark(s: State, t: Thread, m: Mark)
    requires s.At(t).Joining? && Suspends(s, t, m)
    ensures Suspends(SetMark(s, t), t, m)
  {}

  /** Nobody clears the mark of a bufferevent whose lock another thread has. */
  lemma JoinedStays(s: State, t: Thread, step: Step, m: Mark)
    requires s.Honest(t) && (!step.SetsShare? ==> s.Honest(step.t)) && s.At(t).Holds() == Some(m.b)
    requires Enabled(s, step) && ByOther(step, t) && m in s.marks
    ensures m in Next(s, step).marks
  {
    if step.ClearsMark? {
    } else if step.WalksOn? {
    } else {
      hide Next;
      MarksStay(s, step);
    }
  }

  lemma JoinStep(s: State, t: Thread, step: Step, m: Mark)
    requires s.Honest(t) && (!step.SetsShare? ==> s.Honest(step.t))
    requires Enabled(s, step) && OnJoin(step, t) && Suspends(s, t, m)
    ensures Suspends(Next(s, step), t, m)
  {
    if step == SetsMark(t) {
      JoinMark(s, t, m);
    } else {
      hide Next, Enabled, State.Honest;
      OnlyMoves(s, step, t);
      if m in s.marks { JoinedStays(s, t, step, m); }
    }
  }

  /** Whoever joins a suspended group is suspended once it is done, whatever the others do meanwhile. */
  lemma {:induction false} JoinSuspends(s: State, t: Thread, steps: seq<Step>, w: Way)
    requires s.Sound() && Enabled(s, Joins(t)) && w in s.suspended
    requires Reaches(Next(s, Joins(t)), steps) && (forall step <- steps :: OnJoin(step, t))
    ensures var n := After(Next(s, Joins(t)), steps);
      n.At(t).Locked? ==> n.At(t).b == s.At(t).b && Mark(s.At(t).b, w) in n.marks
  {
    NextSound(s, Joins(t));
    JoinRun(Next(s, Joins(t)), t, steps, Mark(s.At(t).b, w));
  }

  lemma {:induction false} JoinRun(s: State, t: Thread, steps: seq<Step>, m: Mark)
    requires s.Sound() && Reaches(s, steps) && (forall step <- steps :: OnJoin(step, t)) && Suspends(s, t, m)
    ensures Suspends(After(s, steps), t, m)
    decreases |steps|
  {
    if steps != [] {
      NextSound(s, steps[0]);
      assert s.Honest(t) && (!steps[0].SetsShare? ==> s.Honest(steps[0].t));
      JoinStep(s, t, steps[0], m);
      hide State.Sound, Suspends;
      JoinRun(Next(s, steps[0]), t, steps[1..], m);
    }
  }

  /** The refill has a reason to wake the members up. */
  predicate Due(s: State, w: Way) { w in s.pending || (w in s.suspended && s.Limit(w) >= s.minShare) }

  /** A refill comes to a direction, and goes on over the members if it has to; whatever the other threads do
      meanwhile, the suspension is over then. The members will have to be woken up again exactly if a lock
      could not be had; otherwise none of them is suspended for the group. */
  lemma RefillResumes(s: State, t: Thread, first: nat, walk: seq<Step>, w: Way)
    requires s.Sound() && Enabled(s, RefillsOn(t, first)) && s.At(t).rest != [] && w == s.At(t).rest[0] && Due(s, w)
    requires Reaches(Next(s, RefillsOn(t, first)), walk) && AllOnWalk(walk, t)
    requires Enabled(After(Next(s, RefillsOn(t, first)), walk), EndsWalk(t))
    ensures var start := Next(s, RefillsOn(t, first)); var n := Next(After(start, walk), EndsWalk(t));
      && n.suspended == s.suspended - {w} && n.At(t) == Refilling(s.At(t).rest[1..])
      && (w in n.pending <==> Misses(start, t, walk)) && n.pending - {w} == s.pending - {w}
      && (!Misses(start, t, walk) ==> forall b | b in n.members :: Mark(b, w) !in n.marks)
  {
    var start := Next(s, RefillsOn(t, first));
    NextSound(s, RefillsOn(t, first));
    Walked(start, t, walk);
    var end := After(start, walk);
    if !Misses(start, t, walk) {
      forall b | b in end.members ensures Mark(b, w) !in Next(end, EndsWalk(t)).marks {
        AllAwake(end, t, Mark(b, w));
      }
    }
  }

  /** Without a reason, the refill goes on and changes nothing else. */
  lemma RefillSpares(s: State, t: Thread, first: nat)
    requires s.Sound() && Enabled(s, RefillsOn(t, first)) && s.At(t).rest != [] && !Due(s, s.At(t).rest[0])
    ensures Next(s, RefillsOn(t, first)) == s.Go(t, Refilling(s.At(t).rest[1..]))
  {}

  /** One group, one thread and one bufferevent. */
  function Scene(p: Place, members: seq<Bev>, suspended: set<Way>, read: int, write: int, lock: Option<Thread>,
                 owners: map<Bev, Thread>, marks: set<Mark>): State
  {
    State(members, suspended, {}, read, write, 10, lock, owners, map[0 := p], marks, {}, 100, 100, 10, false)
  }

  lemma SceneTaken()
    ensures Enabled(Fresh(100, 100, 64), SetsShare(10))
    ensures Enabled(Next(Fresh(100, 100, 64), SetsShare(10)), Takes(0, 7))
    ensures Next(Next(Fresh(100, 100, 64), SetsShare(10)), Takes(0, 7)) ==
              Scene(Locked(7), [], {}, 100, 100, None, map[7 := 0], {})
  {}

  lemma SceneJoined()
    ensures
      var a := Scene(Locked(7), [], {}, 100, 100, None, map[7 := 0], {});
      var b := Scene(Joining(7, {}), [7], {}, 100, 100, None, map[7 := 0], {});
      var c := Scene(Locked(7), [7], {}, 100, 100, None, map[7 := 0], {});
      && Enabled(a, Joins(0)) && Next(a, Joins(0)) == b && Enabled(b, SetsMark(0)) && Next(b, SetsMark(0)) == c
  {}

  lemma SceneSpent()
    ensures
      var c := Scene(Locked(7), [7], {}, 100, 100, None, map[7 := 0], {});
      var d := Scene(Walking(Read, false, [7], false, Back(7)), [7], {Read}, 0, 100, Some(0), map[7 := 0], {});
      Enabled(c, Spends(0, Read, 100, 0)) && Next(c, Spends(0, Read, 100, 0)) == d
  {}

  lemma SceneWalked()
    ensures
      var d := Scene(Walking(Read, false, [7], false, Back(7)), [7], {Read}, 0, 100, Some(0), map[7 := 0], {});
      var e := Scene(Walking(Read, false, [], false, Back(7)), [7], {Read}, 0, 100, Some(0), map[7 := 0],
                     {Mark(7, Read)});
      var f := Scene(Locked(7), [7], {Read}, 0, 100, None, map[7 := 0], {Mark(7, Read)});
      && Enabled(d, WalksOn(0)) && Next(d, WalksOn(0)) == e && Enabled(e, EndsWalk(0)) && Next(e, EndsWalk(0)) == f
  {
    assert [7][1..] == [];
  }

  /** Bufferevent 7 joins a group with 100 bytes and takes them all: the walk suspends it. */
  lemma MemberSuspended()
    ensures
      var start := Next(Fresh(100, 100, 64), SetsShare(10));
      var joins := [Takes(0, 7), Joins(0), SetsMark(0), Spends(0, Read, 100, 0)];
      && Reaches(start, joins)
      && Enabled(After(start, joins), WalksOn(0)) && Enabled(Next(After(start, joins), WalksOn(0)), EndsWalk(0))
      && Next(Next(After(start, joins), WalksOn(0)), EndsWalk(0)) ==
         Scene(Locked(7), [7], {Read}, 0, 100, None, map[7 := 0], {Mark(7, Read)})
  {
    SceneTaken();
    SceneJoined();
    SceneSpent();
    SceneWalked();
    hide Next, Enabled, Scene, Fresh;
    Steps4(Next(Fresh(100, 100, 64), SetsShare(10)), Takes(0, 7), Joins(0), SetsMark(0), Spends(0, Read, 100, 0));
  }

  // ----- progress

  /** Not a step that takes bytes from the bucket or changes the configuration; a tick adds at least one byte. */
  predicate Spares(step: Step) {
    && !step.Spends? && !step.Adjusts? && !step.Configures? && !step.SetsShare?
    && (step.Ticks? ==> step.read >= 1 && step.write >= 1)
  }

  predicate AllSpare(steps: seq<Step>) { forall step <- steps :: Spares(step) }

  function TickCount(steps: seq<Step>): nat {
    if steps == [] then 0 else (if steps[0].Ticks? then 1 else 0) + TickCount(steps[1..])
  }

  /** A refill is under way and has still to come to this direction. */
  predicate Ahead(s: State, w: Way) {
    s.lock.Some? &&
    match s.At(s.lock.value)
    case Refilling(rest) => w in rest
    case Walking(_, _, _, _, Refill(rest)) => w in rest
    case _ => false
  }

  /** A suspension that a refill has come to is one for which there is not enough in the bucket. */
  predicate Settled(s: State, w: Way) { w in s.suspended && !Ahead(s, w) ==> s.Limit(w) < s.minShare }

  lemma TickSettled(s: State, t: Thread, read: nat, write: nat, w: Way)
    ensures Settled(Tick(s, t, read, write), w)
  {
    assert [Read, Write][0] == Read && [Read, Write][1] == Write;
  }

  lemma RefillSettled(s: State, t: Thread, first: nat, w: Way)
    requires s.Honest(t) && s.At(t).Refilling? && first <= |s.members| && Settled(s, w)
    ensures Settled(RefillOn(s, t, first), w)
  {
    var rest := s.At(t).rest;
    if rest != [] { assert rest == [rest[0]] + rest[1..]; }
  }

  lemma EndSettled(s: State, t: Thread, w: Way)
    requires s.Honest(t) && s.At(t).Walking? && Settled(s, w)
    ensures Settled(WalkEnd(s, t), w)
  {}

  lemma OtherSettled(s: State, step: Step, w: Way)
    requires !step.SetsShare? && !step.Ticks? && !step.RefillsOn? && !step.EndsWalk?
    requires s.Honest(step.t) && Enabled(s, step) && Spares(step) && Settled(s, w)
    ensures Settled(Next(s, step), w)
  {
    match step
    case WalksOn(t) =>
    case Joins(t) =>
    case Leaves(t, i) =>
    case _ =>
  }

  lemma StepSettled(s: State, step: Step, w: Way)
    requires !step.SetsShare? && s.Honest(step.t) && Enabled(s, step) && Spares(step)
    requires Settled(s, w) || step.Ticks?
    ensures Settled(Next(s, step), w)
  {
    hide Settled, State.Honest, Tick, RefillOn, WalkEnd;
    match step
    case Ticks(t, read, write) => TickSettled(s, t, read, write, w);
    case RefillsOn(t, first) => RefillSettled(s, t, first, w);
    case EndsWalk(t) => EndSettled(s, t, w);
    case _ => OtherSettled(s, step, w);
  }

  lemma StepFills(s: State, step: Step, w: Way)
    requires Enabled(s, step) && Spares(step)
    ensures Next(s, step).minShare == s.minShare
    ensures Next(s, step).Limit(w) >= s.Limit(w) + if step.Ticks? then 1 else 0
  {
    match step
    case Ticks(t, read, write) =>
    case _ =>
  }

  lemma {:induction false} RunSettled(s: State, steps: seq<Step>, w: Way)
    requires s.Sound() && Reaches(s, steps) && AllSpare(steps) && (Settled(s, w) || TickCount(steps) > 0)
    ensures Settled(After(s, steps), w) && After(s, steps).minShare == s.minShare
    ensures After(s, steps).Limit(w) >= s.Limit(w) + TickCount(steps)
    decreases |steps|
  {
    if steps != [] {
      NextSound(s, steps[0]);
      StepFills(s, steps[0], w);
      assert s.Honest(steps[0].t);
      if Settled(s, w) || steps[0].Ticks? { StepSettled(s, steps[0], w); }
      hide State.Sound, Settled;
      RunSettled(Next(s, steps[0]), steps[1..], w);
    }
  }

  /** In every interleaving in which nobody takes bytes: once there have been as many ticks as there are bytes
      missing to the least share, and a refill is not under way, the group is not suspended. */
  lemma Resumes(s: State, steps: seq<Step>, w: Way)
    requires s.Sound() && Reaches(s, steps) && AllSpare(steps)
    requires TickCount(steps) > 0 && s.Limit(w) + TickCount(steps) >= s.minShare && After(s, steps).lock.None?
    ensures w !in After(s, steps).suspended
  {
    RunSettled(s, steps, w);
  }

  // ----- the configuration

  /** The least share is the one that was asked for, but no more than what a tick adds in either direction. */
  predicate ShareRight(s: State) {
    && s.minShare <= s.share && s.minShare <= s.readRate && s.minShare <= s.writeRate
    && (s.minShare == s.share || s.minShare == s.readRate || s.minShare == s.writeRate)
  }

  lemma {:induction false} AfterShareRight(s: State, steps: seq<Step>)
    requires ShareRight(s) && Reaches(s, steps)
    ensures ShareRight(After(s, steps))
    decreases |steps|
  {
    if steps != [] {
      NextShareRight(s, steps[0]);
      hide ShareRight;
      AfterShareRight(Next(s, steps[0]), steps[1..]);
    }
  }

  lemma NextShareRight(s: State, step: Step)
    requires ShareRight(s) && Enabled(s, step)
    ensures ShareRight(Next(s, step))
  {
    hide Spend, Adjust;
    match step
    case Spends(x, w, bytes, first) => SpendSets(s, x, w, bytes, first);
    case Adjusts(x, w, decr, first) => AdjustSets(s, x, w, decr, first);
    case Configures(t, forRead, forWrite) =>
    case _ =>
  }

  /** In every run the least share is the right one for the configuration and the share that were set last; a
      configuration takes from a bucket only what is above its maximum, and leaves the rest alone. */
  lemma ShareInRuns(readRate: nat, writeRate: nat, share: nat, steps: seq<Step>, t: Thread, read: TokenBucket.Config,
                    write: TokenBucket.Config)
    requires Reaches(Fresh(readRate, writeRate, share), steps)
    requires Enabled(After(Fresh(readRate, writeRate, share), steps), Step.Configures(t, read, write))
    ensures
      var s := After(Fresh(readRate, writeRate, share), steps); var n := Next(s, Step.Configures(t, read, write));
      && ShareRight(s) && ShareRight(n) && n.share == s.share && n.readRate == read.rate && n.writeRate == write.rate
      && n.readLimit == (if s.readLimit > read.maximum then read.maximum else s.readLimit)
      && n.writeLimit == (if s.writeLimit > write.maximum then write.maximum else s.writeLimit)
      && n.suspended == s.suspended && n.pending == s.pending && n.marks == s.marks
  {
    AfterShareRight(Fresh(readRate, writeRate, share), steps);
    NextShareRight(After(Fresh(readRate, writeRate, share), steps), Step.Configures(t, read, write));
  }
}
