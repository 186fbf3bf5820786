/** FrontEnd4's resend timers as part of the state: which ones are pending, and that they suffice if every entry has one. */
module RegisterTimers {
  import opened RegisterMessages
  import opened RegisterProtocol
  import RegisterProgress
  import FE = FrontEndState
  import FrontEnd4Reactor

  /** `timers` are the times at which the pending timers are due. */
  datatype Timed = Timed(sys: System, timers: multiset<Time>)

  datatype TimedStep =
    | Fire(due: Time, now: Time)
    | Untimed(step: Step)

  const Begin := Timed(Start, multiset{})

  /** The timers that an output at time `at` sets. */
  function TimersOf(outs: seq<OutEvent>, at: Time): multiset<Time> {
    if RENEW_TIMER in outs then multiset{at + RESEND_TIMER} else multiset{}
  }

  /** A pending timer fires when it is due, or later; other steps do nothing to the timers, but a call sets one. */
  function Next(t: Timed, step: TimedStep): Timed {
    match step
    case Fire(due, now) =>
      if due in t.timers && due <= now
      then Timed(Apply(t.sys, FireTimer(now)),
                 t.timers - multiset{due} + TimersOf(FrontEnd4Reactor.TimerEvents(t.sys.fe, now), now))
      else t
    case Untimed(FireTimer(_)) => t
    case Untimed(CallClient(at, client, request)) =>
      Timed(Apply(t.sys, CallClient(at, client, request)), t.timers + multiset{at + RESEND_TIMER})
    case Untimed(other) => t.(sys := Apply(t.sys, other))
  }

  function RunTimed(t: Timed, steps: seq<TimedStep>): Timed {
    if steps == [] then t else Next(RunTimed(t, steps[..|steps| - 1]), steps[|steps| - 1])
  }

  /** Every timer fires strictly after it is due. */
  predicate FiresLate(steps: seq<TimedStep>) {
    forall i :: 0 <= i < |steps| && steps[i].Fire? ==> steps[i].now > steps[i].due
  }

  ghost predicate HasTimer(e: OnGoing, timers: multiset<Time>) {
    exists due :: due in timers && due >= e.at + RESEND_TIMER
  }

  /** Every awaited response has a pending timer, due no earlier than the response is. */
  ghost predicate AllTimed(es: seq<OnGoing>, timers: multiset<Time>) {
    forall e :: e in es ==> HasTimer(e, timers)
  }

  lemma {:induction false} TimedInv(steps: seq<TimedStep>)
    ensures Inv(RunTimed(Begin, steps).sys)
  {
    if steps == [] {
      StartOk();
    } else {
      TimedInv(steps[..|steps| - 1]);
      NextInv(RunTimed(Begin, steps[..|steps| - 1]), steps[|steps| - 1]);
    }
  }

  lemma NextInv(t: Timed, step: TimedStep)
    requires Inv(t.sys)
    ensures Inv(Next(t, step).sys)
  {
    match step
    case Fire(due, now) => StepKeeps(t.sys, FireTimer(now));
    case Untimed(other) => StepKeeps(t.sys, other);
  }

  // ---- Late timers leave no entry without a timer ----

  lemma FireKeepsTimers(fe: FE.State, timers: multiset<Time>, due: Time, now: Time)
    requires AllTimed(fe.onGoing, timers) && due in timers && due < now
    ensures AllTimed(FE.Elapse(fe, now).onGoing,
                     timers - multiset{due} + TimersOf(FrontEnd4Reactor.TimerEvents(fe, now), now))
  {
    var es, es' := fe.onGoing, FE.Elapse(fe, now).onGoing;
    var timers' := timers - multiset{due} + TimersOf(FrontEnd4Reactor.TimerEvents(fe, now), now);
    FrontEnd4Reactor.TimerRenewedIffOverdue(fe, now);
    forall e' | e' in es'
      ensures HasTimer(e', timers')
    {
      var i :| 0 <= i < |es'| && es'[i] == e';
      assert es[i] in es && e' == FE.Retry(es[i], now);
      if Overdue(es[i], now) {
        assert now + RESEND_TIMER in timers';
      } else {
        var d :| d in timers && d >= es[i].at + RESEND_TIMER;
        assert d != due && d in timers';
      }
    }
  }

  /**
   * Exactly: a timer that fires on time or later leaves every awaited response with a timer if and only if one of
   * them is overdue, or each of them has another timer.
   */
  lemma FireKeepsTimersIff(fe: FE.State, timers: multiset<Time>, due: Time, now: Time)
    requires due in timers && forall e :: e in fe.onGoing ==> e.at <= now
    ensures
      AllTimed(FE.Elapse(fe, now).onGoing,
               timers - multiset{due} + TimersOf(FrontEnd4Reactor.TimerEvents(fe, now), now))
      <==> (exists e :: e in fe.onGoing && Overdue(e, now)) || AllTimed(fe.onGoing, timers - multiset{due})
  {
    var es' := FE.Elapse(fe, now).onGoing;
    var timers' := timers - multiset{due} + TimersOf(FrontEnd4Reactor.TimerEvents(fe, now), now);
    FrontEnd4Reactor.TimerRenewedIffOverdue(fe, now);
    if e :| e in fe.onGoing && Overdue(e, now) {
      forall e' | e' in es'
        ensures HasTimer(e', timers')
      {
        var i :| 0 <= i < |es'| && es'[i] == e';
        assert fe.onGoing[i] in fe.onGoing && e' == FE.Retry(fe.onGoing[i], now);
        assert now + RESEND_TIMER in timers';
      }
    } else {
      assert timers' == timers - multiset{due};
    }
  }

  lemma CallKeepsTimers(fe: FE.State, timers: multiset<Time>, at: Time, client: ClientId, request: Request)
    requires AllTimed(fe.onGoing, timers)
    ensures AllTimed(FE.Open(fe, at, client, request).onGoing, timers + multiset{at + RESEND_TIMER})
  {
    forall e | e in FE.Open(fe, at, client, request).onGoing
      ensures HasTimer(e, timers + multiset{at + RESEND_TIMER})
    {
      if e in fe.onGoing {
        var due :| due in timers && due >= e.at + RESEND_TIMER;
        assert due in timers + multiset{at + RESEND_TIMER};
      } else {
        assert at + RESEND_TIMER in timers + multiset{at + RESEND_TIMER};
      }
    }
  }

  lemma FewerEntries(sys: System, p: Packet)
    ensures forall e :: e in Apply(sys, Deliver(p)).fe.onGoing ==> e in sys.fe.onGoing
  {
    if p in sys.net && p.to.FrontEnd? && p.args.InternalResponse? {
      FE.WithoutMembers(sys.fe.onGoing, p.from, p.args.id);
    }
  }

  lemma NextKeepsTimers(t: Timed, step: TimedStep)
    requires AllTimed(t.sys.fe.onGoing, t.timers) && (step.Fire? ==> step.now > step.due)
    ensures AllTimed(Next(t, step).sys.fe.onGoing, Next(t, step).timers)
  {
    match step
    case Fire(due, now) =>
      if due in t.timers {
        FireKeepsTimers(t.sys.fe, t.timers, due, now);
      }
    case Untimed(CallClient(at, client, request)) => CallKeepsTimers(t.sys.fe, t.timers, at, client, request);
    case Untimed(Deliver(p)) => FewerEntries(t.sys, p);
    case Untimed(other) =>
  }

  /** If every timer fires strictly after it is due, every awaited response always has a pending timer. */
  lemma {:induction false} EveryEntryIsTimed(t: Timed, steps: seq<TimedStep>)
    requires FiresLate(steps) && AllTimed(t.sys.fe.onGoing, t.timers)
    ensures AllTimed(RunTimed(t, steps).sys.fe.onGoing, RunTimed(t, steps).timers)
  {
    if steps != [] {
      EveryEntryIsTimed(t, steps[..|steps| - 1]);
      NextKeepsTimers(RunTimed(t, steps[..|steps| - 1]), steps[|steps| - 1]);
    }
  }

  // ---- So pending timers and deliveries alone can answer every client ----

  predicate OnlyTimersAndDeliveries(steps: seq<TimedStep>) {
    forall i :: 0 <= i < |steps| ==> steps[i].Fire? || steps[i].step.Deliver?
  }

  lemma {:induction false} TimedAppend(t: Timed, first: seq<TimedStep>, second: seq<TimedStep>)
    ensures RunTimed(t, first + second) == RunTimed(RunTimed(t, first), second)
  {
    if second == [] {
      assert first + second == first;
    } else {
      TimedAppend(t, first, second[..|second| - 1]);
      RegisterProgress.FrontOfAppend(first, second);
    }
  }

  lemma TimedSnoc(t: Timed, steps: seq<TimedStep>, step: TimedStep)
    ensures RunTimed(t, steps + [step]) == Next(RunTimed(t, steps), step)
  {
    assert (steps + [step])[..|steps|] == steps;
  }

  lemma RunFire(t: Timed, due: Time, now: Time)
    requires due in t.timers && due <= now
    ensures RunTimed(t, [Fire(due, now)]).sys == Apply(t.sys, FireTimer(now))
  {
    TimedSnoc(t, [], Fire(due, now));
    assert [] + [Fire(due, now)] == [Fire(due, now)];
  }

  lemma RunDeliver(t: Timed, steps: seq<TimedStep>, p: Packet)
    ensures RunTimed(t, steps + [Untimed(Deliver(p))]).sys == Apply(RunTimed(t, steps).sys, Deliver(p))
  {
    TimedSnoc(t, steps, Untimed(Deliver(p)));
  }

  lemma SettleOneTimed(t: Timed, e: OnGoing, due: Time, now: Time) returns (steps: seq<TimedStep>)
    requires e in t.sys.fe.onGoing && IsRegister(e.register) && Overdue(e, now) && due in t.timers && due < now
    ensures FiresLate(steps) && OnlyTimersAndDeliveries(steps)
    ensures RunTimed(t, steps).sys.fe == FE.Settle(FE.Elapse(t.sys.fe, now), e.register, e.sessionId)
  {
    var request, response := RegisterProgress.ThreeSteps(t.sys, e, now);
    var fire := [Fire(due, now)];
    RunFire(t, due, now);
    RunDeliver(t, fire, request);
    RunDeliver(t, fire + [Untimed(Deliver(request))], response);
    steps := fire + [Untimed(Deliver(request))] + [Untimed(Deliver(response))];
  }

  lemma SettleKeepsCount(fe: FE.State, from: Address, s: SessionId, now: Time)
    ensures FE.Settle(FE.Elapse(fe, now), from, s).nextSessionId == fe.nextSessionId
  {
  }

  /** An awaited response and its timer. */
  lemma PickEntry(es: seq<OnGoing>, timers: multiset<Time>) returns (e: OnGoing, due: Time)
    requires AllTimed(es, timers) && es != []
    ensures e in es && due in timers && Overdue(e, due + 1)
  {
    e := es[0];
    assert HasTimer(e, timers);
    due :| due in timers && due >= e.at + RESEND_TIMER;
  }

  lemma SettleIsProgress(fe: FE.State, e: OnGoing, now: Time)
    requires FE.Consistent(fe) && e in fe.onGoing
    ensures IsRegister(e.register)
    ensures |FE.Settle(FE.Elapse(fe, now), e.register, e.sessionId).onGoing| < |fe.onGoing|
    ensures FE.Settle(FE.Elapse(fe, now), e.register, e.sessionId).nextSessionId == fe.nextSessionId
  {
    RegisterProgress.SettleShrinks(fe, e, now);
    SettleKeepsCount(fe, e.register, e.sessionId, now);
  }

  lemma DrainOneTimed(t: Timed) returns (steps: seq<TimedStep>)
    requires FE.Consistent(t.sys.fe) && AllTimed(t.sys.fe.onGoing, t.timers) && t.sys.fe.onGoing != []
    ensures FiresLate(steps) && OnlyTimersAndDeliveries(steps)
    ensures |RunTimed(t, steps).sys.fe.onGoing| < |t.sys.fe.onGoing|
    ensures RunTimed(t, steps).sys.fe.nextSessionId == t.sys.fe.nextSessionId
  {
    var e, due := PickEntry(t.sys.fe.onGoing, t.timers);
    SettleIsProgress(t.sys.fe, e, due + 1);
    steps := SettleOneTimed(t, e, due, due + 1);
  }

  lemma {:induction false} RunTimedInv(t: Timed, steps: seq<TimedStep>)
    requires Inv(t.sys)
    ensures Inv(RunTimed(t, steps).sys)
  {
    if steps != [] {
      RunTimedInv(t, steps[..|steps| - 1]);
      NextInv(RunTimed(t, steps[..|steps| - 1]), steps[|steps| - 1]);
    }
  }

  lemma {:induction false} DrainTimed(t: Timed) returns (steps: seq<TimedStep>)
    requires Inv(t.sys) && AllTimed(t.sys.fe.onGoing, t.timers)
    ensures FiresLate(steps) && OnlyTimersAndDeliveries(steps)
    ensures RunTimed(t, steps).sys.fe.onGoing == []
    ensures RunTimed(t, steps).sys.fe.nextSessionId == t.sys.fe.nextSessionId
    decreases |t.sys.fe.onGoing|
  {
    if t.sys.fe.onGoing == [] {
      steps := [];
    } else {
      RegisterProgress.InvConsistent(t.sys);
      var first := DrainOneTimed(t);
      RunTimedInv(t, first);
      EveryEntryIsTimed(t, first);
      var rest := DrainTimed(RunTimed(t, first));
      steps := first + rest;
      TimedAppend(t, first, rest);
    }
  }
}
