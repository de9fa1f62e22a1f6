/** The machine behind evdns_getaddrinfo: two subrequests that run in parallel, a timer for the
    slower one, and a user who may cancel from another thread.

    The event loop runs one callback at a time. A callback has a part under the lock of the base and a
    part after it; the user's cancel, new results and the end of the base can all come between the two.
    The base is freed at once, while callbacks that use it may still be to come. */
module GetAddrInfo {
  import opened Basics

  datatype Family = V4 | V6

  type Address = nat

  /** What a subrequest reports: addresses (none when the answer is empty), an error of the server or
      the network, that it was canceled, or that the base is shutting down. */
  datatype Result = Addresses(list: seq<Address>) | Failure(notExist: bool) | Canceled | Shutdown

  /** Queued: the result waits in the deferred queue, and pending_cb is set. */
  datatype Phase = NeverStarted | Working | Queued(result: Result) | Reported

  const EAI_NODATA := 1
  const EAI_NONAME := 2
  const EAI_FAIL := 3
  const EAI_AGAIN := 4
  const EAI_CANCEL := 5

  function Other(f: Family): Family { if f == V4 then V6 else V4 }

  /** What the user callback is given. */
  datatype Outcome = Outcome(code: nat, list: seq<Address>)

  /** The callback that the loop is in, between its part under the lock and the rest. */
  datatype Callback = NoCallback | Running(f: Family, result: Result, canceled: bool)

  function MergeErr(e1: nat, e2: nat): nat { if e1 == 0 then e2 else e1 }

  /** The error that a result stands for; zero for an answer with addresses. */
  function ErrorOf(r: Result): nat {
    match r
    case Addresses(list) => if list == [] then EAI_NODATA else 0
    case Failure(notExist) => if notExist then EAI_NONAME else EAI_FAIL
    case Canceled => EAI_FAIL
    case Shutdown => EAI_FAIL
  }

  /** What can happen: the resolver has a result, the base is freed, the user cancels, the timer runs, a
      callback begins or ends. */
  datatype Step =
    | Replies(f: Family, result: Result)
    | ShutsDown
    | Cancels
    | TimesOut
    | Begins(f: Family)
    | Finishes

  /** What a user without addresses is to be told when r was the last result that was reported: that the name
      does not exist, that the answer was empty, and for everything else that the resolver failed. */
  predicate Tells(code: nat, r: Option<Result>) {
    && r.Some? && code in {EAI_NONAME, EAI_NODATA, EAI_FAIL}
    && (code == EAI_NONAME <==> r == Some(Failure(true)))
    && (code == EAI_NODATA <==> r == Some(Addresses([])))
  }

  lemma ErrorTells(r: Result)
    ensures ErrorOf(r) == 0 <==> r.Addresses? && r.list != []
    ensures ErrorOf(r) != 0 ==> Tells(ErrorOf(r), Some(r))
  {
  }

  /** All the fields of a request, as a value; last is the last result reported before the user had the answer. */
  datatype State = State(
    r4: bool, r6: bool, phase4: Phase, phase6: Phase, running: Callback,
    userCb: bool, userCanceled: bool, requestDone: bool, pendingResult: seq<Address>, pendingError: nat,
    timer: bool, base: bool, calls: seq<Outcome>, freed: nat,
    got4: seq<Address>, got6: seq<Address>, last: Option<Result>)
  {
    predicate R(f: Family) { if f == V4 then r4 else r6 }

    function PhaseOf(f: Family): Phase { if f == V4 then phase4 else phase6 }

    function Got(): seq<Address> { got4 + got6 }

    /** The subrequest has not come to its end. */
    predicate Active(f: Family) { PhaseOf(f).Working? || PhaseOf(f).Queued? }

    /** Each subrequest has reported or was never started. */
    predicate BothReported() { !Active(V4) && !Active(V6) }

    /** The user is answered at most once; the request is freed, once, exactly when both subrequests
        have reported, and the user has been answered by then. */
    predicate AnsweredOnce() {
      && |calls| <= 1
      && freed == (if BothReported() then 1 else 0)
      && (BothReported() ==> |calls| == 1)
    }

    /** The user is given all the addresses that had been reported, or told what the last result was if there
        were none; only a user who has canceled may be told so instead. */
    predicate AnsweredRight(o: Outcome) {
      if o.code == EAI_CANCEL then userCanceled && o.list == []
      else if Got() != [] then o.code == 0 && o.list == Got()
      else Tells(o.code, last) && o.list == []
    }

    /** A subrequest is canceled because the user has canceled, or because the user has the answer and
        the other subrequest has come to its end. */
    predicate Subrequest(f: Family) {
      var with := running.Running? && running.f == f;
      && (R(f) <==> Active(f))
      && (with ==> PhaseOf(f) == Queued(running.result))
      && (PhaseOf(f) == Queued(Shutdown) ==> !base)
      && (!base ==> !PhaseOf(f).Working?)
      && (PhaseOf(f) == Queued(Canceled) ==>
            (if with then running.canceled else userCanceled) || (!userCb && !Active(Other(f))))
    }

    /** What is kept for the user is what the subrequest that has reported was given, unless the user
        had canceled by then. */
    predicate Keeps() {
      && (phase4.Reported? || got4 == []) && (phase6.Reported? || got6 == [])
      && (running.Running? && running.canceled ==> userCanceled)
      && (timer && pendingResult == [] ==> Tells(pendingError, last))
      && (userCb && freed == 0 ==>
            pendingResult == Got()
            || (userCanceled && pendingResult == [] && !timer && (running.Running? ==> running.canceled)))
    }

    /** The loop may take this callback. */
    predicate CanBegin(f: Family) { running.NoCallback? && PhaseOf(f).Queued? }

    /** The callback that is under way will set the timer, whose length is that of the base. */
    predicate SetsTimer() {
      && running.Running? && running.result != Shutdown
      && userCb && Active(Other(running.f))
      && (ErrorOf(running.result) != 0 || !running.canceled)
    }

    /** The step takes the lock of the base, or reads the base. */
    predicate UsesBase(step: Step) {
      match step
      case Replies(f, result) => true
      case ShutsDown => true
      case Cancels => true
      case TimesOut => true
      case Begins(f) => PhaseOf(f) != Queued(Shutdown)
      case Finishes => SetsTimer()
    }

    /** The step would use the memory of a base that has been freed. */
    predicate Faulty(step: Step) { UsesBase(step) && !base }

    /** When evdns_base_free is called: no result is queued whose callback is to come, the timer is not
        to run, and the callback that is under way will not set it. */
    predicate SafeToFree() {
      && (forall f :: PhaseOf(f).Queued? ==> running.Running? && running.f == f)
      && (timer ==> running.Running?)
      && !SetsTimer()
    }

    /** After evdns_base_free: what is still to come leaves the base alone. */
    predicate Severed() {
      && !base
      && (forall f :: PhaseOf(f).Queued? ==> PhaseOf(f).result == Shutdown || (running.Running? && running.f == f))
      && (timer ==> running.Running?)
      && !SetsTimer()
    }

    /** A subrequest reports while the other is not at its end, and the user waits for both. */
    predicate SkewBegins() {
      && running.Running? && running.result != Shutdown && !running.canceled
      && userCb && Active(Other(running.f))
    }

    predicate Enabled(step: Step) {
      match step
      case Replies(f, result) => PhaseOf(f).Working? && (result.Addresses? || result.Failure?)
      case ShutsDown => base
      case Cancels => freed == 0 && base
      case TimesOut => timer && running.NoCallback?
      case Begins(f) => CanBegin(f)
      case Finishes => running.Running?
    }

    predicate Sound() {
      && Subrequest(V4) && Subrequest(V6)
      && AnsweredOnce()
      && (calls != [] ==> AnsweredRight(calls[0]))
      && (freed == 0 ==> (userCb <==> calls == []))
      && (freed == 1 ==> !timer && running.NoCallback?)
      && (freed == 0 && !userCb ==> Active(V4) != Active(V6))
      && (timer ==> userCb && Active(V4) != Active(V6))
      && (requestDone && freed == 0 ==> running.Running? && !Active(Other(running.f)))
      && Keeps()
    }
  }

  function Launched(v4: bool, v6: bool): State {
    State(v4, v6, if v4 then Working else NeverStarted, if v6 then Working else NeverStarted, NoCallback,
          true, false, false, [], 0, false, true, [], 0, [], [], None)
  }

  /** The state once the handle of the running subrequest has been given up. The record for the user
      has what the subrequest came with, as long as the user has no answer. */
  function Over(s: State): (t: State)
    requires s.running.Running?
    ensures t.userCb == s.userCb && t.freed == s.freed && t.calls == s.calls && t.running.NoCallback?
    ensures t.pendingResult == s.pendingResult && t.base == s.base
    ensures t.PhaseOf(s.running.f) == Reported && t.PhaseOf(Other(s.running.f)) == s.PhaseOf(Other(s.running.f))
  {
    var Running(f, result, canceled) := s.running;
    var addresses := if s.userCb && result.Addresses? then result.list else [];
    var last := if s.userCb then Some(result) else s.last;
    if f == V4 then
      s.(running := NoCallback, r4 := false, phase4 := Reported, got4 := addresses, last := last)
    else
      s.(running := NoCallback, r6 := false, phase6 := Reported, got6 := addresses, last := last)
  }

  /** evdns_cancel_request: nothing happens when the callback is pending already. */
  function Stopped(p: Phase): Phase { if p.Working? then Queued(Canceled) else p }

  /** What the user is told by the last subrequest to report. */
  function Answer(s: State): Outcome
    requires s.running.Running?
  {
    var Running(f, result, canceled) := s.running;
    if canceled then Outcome(EAI_CANCEL, [])
    else if ErrorOf(result) == 0 then
      Outcome(0, if f == V4 then result.list + s.pendingResult else s.pendingResult + result.list)
    else if s.pendingResult != [] then Outcome(0, s.pendingResult)
    else Outcome(ErrorOf(result), [])
  }

  /** The state after the callback. */
  function Finished(s: State): State
    requires s.running.Running?
  {
    var t, Running(f, result, canceled) := Over(s), s.running;
    if s.userCb && s.R(Other(f)) then
      if ErrorOf(result) != 0 then t.(timer := s.timer || result != Shutdown, pendingError := ErrorOf(result))
      else if canceled then t
      else t.(timer := true, pendingResult := result.list)
    else
      t.(timer := false, freed := s.freed + 1, calls := if s.userCb then s.calls + [Answer(s)] else s.calls,
         pendingResult := if s.userCb && !canceled then [] else s.pendingResult)
  }

  /** The state after a step. */
  function After(s: State, step: Step): State
    requires s.Enabled(step)
  {
    match step
    case Replies(f, result) => if f == V4 then s.(phase4 := Queued(result)) else s.(phase6 := Queued(result))
    case ShutsDown =>
      s.(base := false, phase4 := if s.phase4.Working? then Queued(Shutdown) else s.phase4,
         phase6 := if s.phase6.Working? then Queued(Shutdown) else s.phase6)
    case Cancels =>
      if s.requestDone then s else
        s.(timer := false, userCanceled := true, phase4 := Stopped(s.phase4), phase6 := Stopped(s.phase6))
    case TimesOut =>
      s.(timer := false, phase4 := Stopped(s.phase4), phase6 := Stopped(s.phase6), userCb := false, pendingResult := [],
         calls := s.calls + [if s.Got() != [] then Outcome(0, s.Got()) else Outcome(s.pendingError, [])])
    case Begins(f) =>
      s.(running := Running(f, s.PhaseOf(f).result, s.userCanceled),
         requestDone := s.requestDone || (s.PhaseOf(f).result != Shutdown && !s.R(Other(f))))
    case Finishes => Finished(s)
  }

  /** The user has the answer: only the memory is left to be freed. */
  lemma OverUnheard(s: State)
    requires s.Sound() && s.running.Running? && !s.userCb
    ensures Finished(s).Sound()
  {
  }

  /** An error, while the other subrequest may still succeed. */
  lemma OverFailed(s: State)
    requires s.Sound() && s.running.Running? && s.userCb && s.R(Other(s.running.f))
    requires ErrorOf(s.running.result) != 0
    ensures Finished(s).Sound()
  {
    ErrorTells(s.running.result);
  }

  /** Addresses, while the other subrequest may bring more. */
  lemma OverAnswered(s: State)
    requires s.Sound() && s.running.Running? && s.userCb && s.R(Other(s.running.f))
    requires ErrorOf(s.running.result) == 0
    ensures Finished(s).Sound()
  {
  }

  /** What the last subrequest to report has for the user is right. */
  lemma Told(s: State)
    requires s.Sound() && s.running.Running? && s.userCb && !s.R(Other(s.running.f))
    ensures Over(s).AnsweredRight(Answer(s))
  {
    if s.running.canceled {
      assert s.userCanceled;
    } else {
      assert s.pendingResult == s.Got();
      ToldWhole(s, Over(s));
    }
  }

  /** The user has not canceled: what was kept and what came last are all that was reported. */
  lemma ToldWhole(s: State, t: State)
    requires s.Keeps() && s.running.Running? && s.userCb && !s.running.canceled && t == Over(s)
    requires s.pendingResult == s.Got() && s.PhaseOf(s.running.f).Queued?
    ensures t.AnsweredRight(Answer(s))
  {
    hide State.Keeps;
    var Running(f, result, canceled) := s.running;
    OverGot(s);
    if ErrorOf(result) == 0 {
      assert result.list != [];
    } else {
      ErrorTells(result);
    }
  }

  /** The addresses reported so far, with those that the callback brings in their place. */
  lemma OverGot(s: State)
    requires s.Keeps() && s.running.Running? && s.userCb && s.PhaseOf(s.running.f).Queued?
    ensures
      var Running(f, result, canceled) := s.running;
      Over(s).Got() == if ErrorOf(result) != 0 then s.Got()
                       else if f == V4 then result.list + s.Got() else s.Got() + result.list
  {
    assert s.Got() + [] == s.Got();
    assert if s.running.f == V4 then s.got4 == [] && s.Got() == s.got6 else s.got6 == [] && s.Got() == s.got4;
  }

  /** The last subrequest reports, and the user is told. */
  lemma OverLast(s: State)
    requires s.Sound() && s.running.Running? && s.userCb && !s.R(Other(s.running.f))
    ensures Finished(s).Sound()
  {
    Told(s);
  }

  /** A callback that was canceled by the timer is the last one, and the user has the answer. */
  lemma CanceledAlone(s: State)
    requires s.Sound() && s.running.Running? && s.running.result == Canceled && !s.running.canceled
    ensures !s.userCb && !s.R(Other(s.running.f))
  {
  }

  /** The subrequest is done, the other one is as it was, and the timer runs when the user is to wait. */
  lemma FinishedDone(s: State)
    requires s.Sound() && s.running.Running?
    ensures Finished(s).running.NoCallback? && Finished(s).PhaseOf(s.running.f) == Reported
    ensures Finished(s).PhaseOf(Other(s.running.f)) == s.PhaseOf(Other(s.running.f))
  {
    hide Over, State.Sound, Answer, ErrorOf;
  }

  lemma FinishedSkews(s: State)
    requires s.Sound() && s.running.Running? && s.SkewBegins()
    ensures Finished(s).timer
  {
  }

  lemma FinishSound(s: State)
    requires s.Sound() && s.running.Running?
    ensures Finished(s).Sound()
  {
    if !s.userCb {
      OverUnheard(s);
    } else if !s.R(Other(s.running.f)) {
      OverLast(s);
    } else if ErrorOf(s.running.result) != 0 {
      OverFailed(s);
    } else {
      OverAnswered(s);
    }
  }

  lemma TimeoutSound(s: State)
    requires s.Sound() && s.timer && s.running.NoCallback?
    ensures After(s, TimesOut).Sound()
  {
  }

  lemma ReplySound(s: State, f: Family, result: Result)
    requires s.Sound() && s.Enabled(Replies(f, result))
    ensures After(s, Replies(f, result)).Sound()
  {
  }

  lemma ShutDownSound(s: State)
    requires s.Sound() && s.base
    ensures After(s, ShutsDown).Sound()
  {
  }

  lemma CancelSound(s: State)
    requires s.Sound() && s.freed == 0 && s.base
    ensures After(s, Cancels).Sound()
  {
  }

  lemma BeginSound(s: State, f: Family)
    requires s.Sound() && s.CanBegin(f)
    ensures After(s, Begins(f)).Sound()
  {
  }

  lemma FinishedAfter(s: State)
    requires s.running.Running?
    ensures After(s, Finishes) == Finished(s)
  {
  }

  /** Every step that can happen keeps the invariant. */
  lemma AfterSound(s: State, step: Step)
    requires s.Sound() && s.Enabled(step)
    ensures After(s, step).Sound()
  {
    hide State.Sound, State.CanBegin, After, State.UsesBase;
    match step
    case Replies(f, result) => ReplySound(s, f, result);
    case ShutsDown => ShutDownSound(s);
    case Cancels => CancelSound(s);
    case TimesOut => TimeoutSound(s);
    case Begins(f) => BeginSound(s, f);
    case Finishes =>
      FinishSound(s);
      FinishedAfter(s);
  }

  /** Running the steps from s on, those left out that cannot happen: does one of them use a base that
      has been freed? */
  predicate Faults(s: State, steps: seq<Step>)
    decreases |steps|
  {
    steps != [] &&
    if !s.Enabled(steps[0]) then Faults(s, steps[1..])
    else s.Faulty(steps[0]) || Faults(After(s, steps[0]), steps[1..])
  }

  /** The state that the steps lead to, up to the first use of a base that has been freed. */
  function Final(s: State, steps: seq<Step>): State
    decreases |steps|
  {
    if steps == [] then s
    else if !s.Enabled(steps[0]) then Final(s, steps[1..])
    else if s.Faulty(steps[0]) then s
    else Final(After(s, steps[0]), steps[1..])
  }

  lemma SeveredStep(s: State, step: Step)
    requires s.Sound() && s.Severed() && s.Enabled(step)
    ensures After(s, step).Severed() && !s.Faulty(step)
  {}

  /** Once severed, always: no later step uses the base. */
  lemma {:induction false} SeveredStays(s: State, steps: seq<Step>)
    requires s.Sound() && s.Severed()
    ensures !Faults(s, steps)
    decreases |steps|
  {
    hide State.Sound, State.Severed, State.Faulty;
    if steps != [] {
      if s.Enabled(steps[0]) {
        AfterSound(s, steps[0]);
        SeveredStep(s, steps[0]);
        hide After, State.Enabled;
        SeveredStays(After(s, steps[0]), steps[1..]);
      } else {
        SeveredStays(s, steps[1..]);
      }
    }
  }

  /** A base that is freed in a state that is not safe for it is used afterwards, by steps that then happen. */
  lemma Exposed(s: State)
    requires s.Sound() && s.base && !s.SafeToFree()
    ensures exists steps :: Faults(After(s, ShutsDown), steps)
  {
    var t := After(s, ShutsDown);
    AfterSound(s, ShutsDown);
    if s.SetsTimer() {
      assert t.SetsTimer();
      assert Faults(t, [Finishes]);
    } else if s.timer && s.running.NoCallback? {
      assert Faults(t, [TimesOut]);
    } else {
      var f :| s.PhaseOf(f).Queued? && !(s.running.Running? && s.running.f == f);
      if s.running.NoCallback? {
        assert Faults(t, [Begins(f)]);
      } else {
        assert t.Enabled(Finishes) && !t.Faulty(Finishes);
        var u := After(t, Finishes);
        AfterSound(t, Finishes);
        assert u.Enabled(Begins(f)) && u.Faulty(Begins(f));
        assert Faults(u, [Finishes, Begins(f)][1..]);
        assert Faults(t, [Finishes, Begins(f)]);
      }
    }
  }

  lemma SafeSevers(s: State)
    requires s.Sound() && s.base && s.SafeToFree()
    ensures After(s, ShutsDown).Severed()
  {
  }

  lemma BaseStays(s: State, step: Step)
    requires s.Enabled(step) && s.base && step != ShutsDown
    ensures After(s, step).base && !s.Faulty(step)
  {
    hide Over, Answer, ErrorOf, State.UsesBase, State.CanBegin;
  }

  /** The base may be freed without a later use of it exactly in these states. */
  lemma FreeingIsSafe(s: State)
    requires s.Sound() && s.base
    ensures s.SafeToFree() <==> forall steps :: !Faults(After(s, ShutsDown), steps)
  {
    if s.SafeToFree() {
      AfterSound(s, ShutsDown);
      SafeSevers(s);
      forall steps
        ensures !Faults(After(s, ShutsDown), steps)
      {
        SeveredStays(After(s, ShutsDown), steps);
      }
    } else {
      Exposed(s);
    }
  }

  /** Each time the base is freed in this run, that is safe. */
  predicate FreesSafely(s: State, steps: seq<Step>)
    decreases |steps|
  {
    steps == [] ||
    if !s.Enabled(steps[0]) then FreesSafely(s, steps[1..])
    else (steps[0] == ShutsDown ==> s.SafeToFree()) && FreesSafely(After(s, steps[0]), steps[1..])
  }

  lemma {:induction false} SafelyFaultless(s: State, steps: seq<Step>)
    requires s.Sound() && (s.base || s.Severed()) && FreesSafely(s, steps)
    ensures !Faults(s, steps)
    decreases |steps|
  {
    hide State.Sound;
    if s.Severed() {
      SeveredStays(s, steps);
    } else if steps != [] {
      if s.Enabled(steps[0]) {
        AfterSound(s, steps[0]);
        if steps[0] == ShutsDown {
          SafeSevers(s);
        } else {
          BaseStays(s, steps[0]);
        }
        SafelyFaultless(After(s, steps[0]), steps[1..]);
      } else {
        SafelyFaultless(s, steps[1..]);
      }
    }
  }

  /** An answer is queued, the base is freed, and the callback of the answer takes the lock of the base. */
  lemma QueuedAnswerFaults()
    ensures Faults(Launched(true, true), [Replies(V4, Addresses([1])), ShutsDown, Begins(V4)])
  {
    var steps := [Replies(V4, Addresses([1])), ShutsDown, Begins(V4)];
    var s := After(Launched(true, true), steps[0]);
    var t := After(s, ShutsDown);
    assert t.Faulty(Begins(V4)) && t.Enabled(Begins(V4));
    assert Faults(t, steps[1..][1..]);
    assert Faults(s, steps[1..]);
  }

  /** The skew timer runs, the base is freed, and the timer takes the lock of the base. */
  lemma SkewTimerFaults()
    ensures Faults(Launched(true, true), [Replies(V4, Addresses([1])), Begins(V4), Finishes, ShutsDown, TimesOut])
  {
    var steps := [Replies(V4, Addresses([1])), Begins(V4), Finishes, ShutsDown, TimesOut];
    var s := After(Launched(true, true), steps[0]);
    var t := After(s, Begins(V4));
    assert t.base;
    var u := After(t, Finishes);
    var v := After(u, ShutsDown);
    assert v.Faulty(TimesOut) && v.Enabled(TimesOut);
    assert Faults(v, steps[1..][1..][1..][1..]);
    assert Faults(u, steps[1..][1..][1..]);
    assert Faults(t, steps[1..][1..]);
    assert Faults(s, steps[1..]);
  }

  /** struct evdns_getaddrinfo_request, whose members the methods update one after the other. */
  class Request {
    var now: State

    ghost predicate Valid()
      reads this
    {
      now.Sound()
    }

    /** evdns_getaddrinfo, once at least one of the two subrequests has been launched. */
    constructor (v4: bool, v6: bool)
      requires v4 || v6
      ensures Valid() && now == Launched(v4, v6)
    {
      now := Launched(v4, v6);
    }

    /** A server answers, or the last try has failed: the callback is deferred. */
    method Reply(f: Family, result: Result)
      requires Valid() && now.PhaseOf(f).Working? && (result.Addresses? || result.Failure?)
      modifies this
      ensures Valid() && now == After(old(now), Replies(f, result))
    {
      AfterSound(now, Replies(f, result));
      if f == V4 {
        now := now.(phase4 := Queued(result));
      } else {
        now := now.(phase6 := Queued(result));
      }
    }

    /** evdns_base_free with fail_requests: every request that is at work fails, and the base is freed. */
    method ShutDown()
      requires Valid() && now.base
      modifies this
      ensures Valid() && now == After(old(now), ShutsDown) && !now.base
      ensures forall f :: now.PhaseOf(f) ==
                          if old(now).PhaseOf(f).Working? then Queued(Shutdown) else old(now).PhaseOf(f)
    {
      AfterSound(now, ShutsDown);
      if now.phase4.Working? {
        now := now.(phase4 := Queued(Shutdown));
      }
      if now.phase6.Working? {
        now := now.(phase6 := Queued(Shutdown));
      }
      now := now.(base := false);
    }

    /** evdns_getaddrinfo_cancel, from any thread. */
    method Cancel()
      requires Valid() && now.freed == 0 && now.base
      modifies this
      ensures Valid() && now == After(old(now), Cancels)
      ensures now == if old(now).requestDone then old(now) else
                       old(now).(timer := false, userCanceled := true,
                                 phase4 := Stopped(old(now).phase4), phase6 := Stopped(old(now).phase6))
    {
      AfterSound(now, Cancels);
      if now.requestDone {
        return;
      }
      now := now.(timer := false);
      now := now.(userCanceled := true);
      if now.r4 {
        now := now.(phase4 := Stopped(now.phase4));
      }
      if now.r6 {
        now := now.(phase6 := Stopped(now.phase6));
      }
    }

    /** evdns_getaddrinfo_timeout_cb, in the loop: the user has what there is, and the slower subrequest
        is canceled. */
    method Timeout()
      requires Valid() && now.timer && now.running.NoCallback? && now.base
      modifies this
      ensures Valid() && now.freed == 0 && now == After(old(now), TimesOut)
      ensures now.calls == [if now.Got() != [] then Outcome(0, now.Got()) else Outcome(now.pendingError, [])]
      ensures now.Got() == [] ==> Tells(now.calls[0].code, now.last)
      ensures now.Got() == old(now).Got() && now.last == old(now).last
      ensures now.phase4 == Stopped(old(now).phase4) && now.phase6 == Stopped(old(now).phase6)
    {
      ghost var s := now;
      now := now.(timer := false);
      var v4, v6 := now.r4, now.r6;
      if v4 {
        now := now.(phase4 := Stopped(now.phase4));
      }
      if v6 {
        now := now.(phase6 := Stopped(now.phase6));
      }
      // The assertion in the source; so the case after it, that neither is at work, is impossible.
      assert v4 != v6;
      var o;
      if now.pendingResult != [] {
        o := Outcome(0, now.pendingResult);
        now := now.(pendingResult := []);
      } else {
        o := Outcome(if now.pendingError == 0 then EAI_AGAIN else now.pendingError, []);
      }
      now := now.(calls := now.calls + [o], userCb := false);
      TimeoutSound(s);
      assert now.calls == After(s, TimesOut).calls;
    }

    /** evdns_getaddrinfo_gotresolve, up to the end of the part under the lock of the base, or without
        the lock for a shutdown. */
    method BeginCallback(f: Family)
      requires Valid() && now.CanBegin(f) && !now.Faulty(Begins(f))
      modifies this
      ensures Valid() && now == After(old(now), Begins(f))
      ensures now.running == Running(f, old(now).PhaseOf(f).result, old(now).userCanceled)
      ensures now.(running := NoCallback, requestDone := old(now).requestDone) == old(now)
    {
      AfterSound(now, Begins(f));
      var result := now.PhaseOf(f).result;
      now := now.(running := Running(f, result, now.userCanceled));
      if result != Shutdown {
        if !now.R(Other(f)) {
          now := now.(requestDone := true);
        }
      }
    }

    /** The rest of evdns_getaddrinfo_gotresolve. */
    method FinishCallback()
      requires Valid() && now.running.Running? && !now.Faulty(Finishes)
      modifies this
      ensures Valid() && now == After(old(now), Finishes) && now.running.NoCallback?
      ensures now.PhaseOf(old(now).running.f) == Reported
      ensures now.PhaseOf(Other(old(now).running.f)) == old(now).PhaseOf(Other(old(now).running.f))
      ensures old(now).SkewBegins() ==> now.timer
    {
      hide State.Sound, State.SkewBegins, State.PhaseOf, Over;
      ghost var s := now;
      FinishSound(s);
      FinishedDone(s);
      if s.SkewBegins() {
        FinishedSkews(s);
      }
      if s.running.result == Canceled && !s.running.canceled {
        CanceledAlone(s);
      }
      var Running(f, result, canceled) := now.running;
      var other := now.R(Other(f));
      // req->r = NULL
      now := Over(now);
      if result == Canceled && !canceled {
        // The timer has canceled: the user has the answer.
        if !other {
          now := now.(timer := false, freed := now.freed + 1);
        }
      } else if !now.userCb {
        now := now.(timer := false, freed := now.freed + 1);
      } else if ErrorOf(result) != 0 {
        FinishError(s, result, other, canceled);
      } else {
        FinishAnswer(s, f, result.list, other, canceled);
      }
    }

    method FinishError(ghost s: State, result: Result, other: bool, canceled: bool)
      requires s.Sound() && s.running.Running? && s.running.result == result && s.running.canceled == canceled
      requires s.userCb && !s.Faulty(Finishes)
      requires other == s.R(Other(s.running.f)) && ErrorOf(result) != 0
      requires now == Over(s)
      modifies this
      ensures now == Finished(s)
    {
      var err := ErrorOf(result);
      if other {
        if result != Shutdown {
          // The length of the timer is that of evdns_base.
          assert now.base;
          now := now.(timer := true);
        }
        now := now.(pendingError := err);
        return;
      }
      if canceled {
        Last(Outcome(EAI_CANCEL, []), now.pendingResult);
      } else if now.pendingResult != [] {
        Last(Outcome(0, now.pendingResult), []);
      } else {
        Last(Outcome(if now.pendingError != 0 then MergeErr(err, now.pendingError) else err, []), []);
      }
    }

    method FinishAnswer(ghost s: State, f: Family, list: seq<Address>, other: bool, canceled: bool)
      requires s.Sound() && s.running == Running(f, Addresses(list), canceled)
      requires s.userCb && !s.Faulty(Finishes)
      requires other == s.R(Other(f)) && list != []
      requires now == Over(s)
      modifies this
      ensures now == Finished(s)
    {
      if other {
        if !canceled {
          // As above.
          assert now.base;
          now := now.(timer := true, pendingResult := list);
        }
        return;
      }
      if canceled {
        Last(Outcome(EAI_CANCEL, []), now.pendingResult);
      } else {
        Last(Outcome(0, if f == V4 then list + now.pendingResult else now.pendingResult + list), []);
      }
    }

    /** The user callback is called, and the request is freed. */
    method Last(o: Outcome, kept: seq<Address>)
      modifies this
      ensures now == old(now).(calls := old(now).calls + [o], pendingResult := kept, timer := false,
                               freed := old(now).freed + 1)
    {
      now := now.(calls := now.calls + [o], pendingResult := kept);
      now := now.(timer := false, freed := now.freed + 1);
    }
  }

  /** Nothing gets stuck: while the request has not been freed, a subrequest is at work, a callback can
      begin, or one is under way. */
  lemma NeverStuck(s: State)
    requires s.Sound() && s.freed == 0
    ensures s.phase4.Working? || s.phase6.Working? || s.running.Running? || s.CanBegin(V4) || s.CanBegin(V6)
  {
  }

  /** A name that does not exist: the one subrequest says so, and so is the user told. */
  lemma NoSuchName()
    ensures
      var steps := [Replies(V4, Failure(true)), Begins(V4), Finishes];
      Final(Launched(true, false), steps).calls == [Outcome(EAI_NONAME, [])]
  {
    var steps := [Replies(V4, Failure(true)), Begins(V4), Finishes];
    var s := After(Launched(true, false), steps[0]);
    var t := After(s, Begins(V4));
    assert Final(t, steps[1..][1..]) == After(t, Finishes);
    assert Final(s, steps[1..]) == After(t, Finishes);
  }

  /** Any interleaving of the steps, those that cannot happen left out, up to the first use of a base
      that has been freed; there is one exactly when Faults says so, and none if the base is freed only
      when that is safe. The user is called at most once, and with what had been reported; the request
      is freed when both subrequests have reported, and only then; by then the user has been called. */
  method Run(v4: bool, v6: bool, steps: seq<Step>) returns (r: Request, faulted: bool)
    requires v4 || v6
    ensures fresh(r) && r.Valid()
    ensures r.now == Final(Launched(v4, v6), steps) && (faulted <==> Faults(Launched(v4, v6), steps))
    ensures faulted ==> !FreesSafely(Launched(v4, v6), steps)
    ensures |r.now.calls| <= 1 && r.now.freed <= 1
    ensures r.now.BothReported() <==> r.now.freed == 1
    ensures r.now.freed == 1 ==> |r.now.calls| == 1
    ensures r.now.calls != [] ==> r.now.AnsweredRight(r.now.calls[0])
  {
    r := new Request(v4, v6);
    if FreesSafely(Launched(v4, v6), steps) {
      SafelyFaultless(Launched(v4, v6), steps);
    }
    for i := 0 to |steps|
      invariant fresh(r) && r.Valid()
      invariant Faults(Launched(v4, v6), steps) <==> Faults(r.now, steps[i..])
      invariant Final(Launched(v4, v6), steps) == Final(r.now, steps[i..])
    {
      assert steps[i..][0] == steps[i] && steps[i..][1..] == steps[i + 1..];
      if r.now.Enabled(steps[i]) {
        if r.now.Faulty(steps[i]) {
          return r, true;
        }
        match steps[i]
        case Replies(f, result) => r.Reply(f, result);
        case ShutsDown => r.ShutDown();
        case Cancels => r.Cancel();
        case TimesOut => r.Timeout();
        case Begins(f) => r.BeginCallback(f);
        case Finishes => r.FinishCallback();
      }
    }
    return r, false;
  }
}
