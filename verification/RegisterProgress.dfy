/** From every reachable state, timers and deliveries alone can answer every client. */
module RegisterProgress {
  import opened RegisterMessages
  import opened RegisterProtocol
  import FE = FrontEndState
  import FrontEnd4Reactor
  import R = RegisterReactor

  /** A step of a continuation without new calls or losses, whose timers fire after `bound`. */
  predicate Quiet(step: Step, bound: Time) {
    step.Deliver? || (step.FireTimer? && step.now > bound)
  }

  ghost predicate AllQuiet(steps: seq<Step>, bound: Time) {
    forall i :: 0 <= i < |steps| ==> Quiet(steps[i], bound)
  }

  /** No client calls, except perhaps to read. */
  predicate OnlyReads(steps: seq<Step>) {
    steps != [] ==>
      OnlyReads(steps[..|steps| - 1])
      && (steps[|steps| - 1].CallClient? ==> steps[|steps| - 1].request.Read?)
  }

  predicate CallFree(steps: seq<Step>) {
    steps != [] ==> CallFree(steps[..|steps| - 1]) && !steps[|steps| - 1].CallClient?
  }

  lemma OnlyReadsSnoc(steps: seq<Step>, step: Step)
    requires OnlyReads(steps) && (step.CallClient? ==> step.request.Read?)
    ensures OnlyReads(steps + [step])
  {
    assert (steps + [step])[..|steps|] == steps;
  }

  lemma CallFreeSnoc(steps: seq<Step>, step: Step)
    requires CallFree(steps) && !step.CallClient?
    ensures CallFree(steps + [step])
  {
    assert (steps + [step])[..|steps|] == steps;
  }

  lemma {:induction false} OnlyReadsAppend(first: seq<Step>, second: seq<Step>)
    requires OnlyReads(first) && OnlyReads(second)
    ensures OnlyReads(first + second)
  {
    if second == [] {
      assert first + second == first;
    } else {
      OnlyReadsAppend(first, second[..|second| - 1]);
      OnlyReadsSnoc(first + second[..|second| - 1], second[|second| - 1]);
      assert first + second[..|second| - 1] + [second[|second| - 1]] == first + second;
    }
  }

  lemma {:induction false} QuietAppend(first: seq<Step>, second: seq<Step>, bound: Time)
    requires CallFree(first) && AllQuiet(second, bound)
    ensures CallFree(first + second)
  {
    if second == [] {
      assert first + second == first;
    } else {
      QuietAppend(first, second[..|second| - 1], bound);
      assert Quiet(second[|second| - 1], bound);
      CallFreeSnoc(first + second[..|second| - 1], second[|second| - 1]);
      assert first + second[..|second| - 1] + [second[|second| - 1]] == first + second;
    }
  }

  lemma FrontOfAppend<T>(first: seq<T>, second: seq<T>)
    requires second != []
    ensures first + second != [] && (first + second)[..|first + second| - 1] == first + second[..|second| - 1]
    ensures (first + second)[|first + second| - 1] == second[|second| - 1]
  {
  }

  lemma {:induction false} RunAppend(sys: System, first: seq<Step>, second: seq<Step>)
    ensures Run(sys, first + second) == Run(Run(sys, first), second)
  {
    if second == [] {
      assert first + second == first;
    } else {
      RunAppend(sys, first, second[..|second| - 1]);
      FrontOfAppend(first, second);
    }
  }

  lemma RunSnoc(sys: System, steps: seq<Step>, step: Step)
    ensures Run(sys, steps + [step]) == Apply(Run(sys, steps), step)
  {
    assert (steps + [step])[..|steps|] == steps;
  }

  /** A time at which every entry is overdue. */
  function LateEnough(es: seq<OnGoing>, bound: Time): (now: Time)
    ensures now > bound
    ensures forall e :: e in es ==> Overdue(e, now)
  {
    if es == [] then bound + 1 else
      var late := LateEnough(es[..|es| - 1], bound);
      var own := es[|es| - 1].at + RESEND_TIMER + 1;
      assert es == es[..|es| - 1] + [es[|es| - 1]];
      if own > late then own else late
  }

  // ---- Three steps settle one awaited response ----

  lemma FireSends(sys: System, e: OnGoing, now: Time)
    requires e in sys.fe.onGoing && Overdue(e, now)
    ensures Apply(sys, FireTimer(now)).fe == FE.Elapse(sys.fe, now)
    ensures Packet(FrontEnd, e.register, InternalRequest(e.sessionId, e.request)) in Apply(sys, FireTimer(now)).net
  {
    var outs := FrontEnd4Reactor.TimerEvents(sys.fe, now);
    FE.ResendEventsMembers(sys.fe.onGoing, now);
    assert ToRegister(e) in FE.ResendEvents(sys.fe.onGoing, now);
    assert ToRegister(e) in outs;
    PacketsMembers(FrontEnd, outs);
  }

  lemma ServeAnswers(sys: System, p: Packet)
    requires p in sys.net && IsRegister(p.to) && p.args.InternalRequest?
    ensures Apply(sys, Deliver(p)).fe == sys.fe
    ensures Packet(p.to, p.from, InternalResponse(p.args.id, R.Answer(sys.Reg(p.to), p.args.request)))
         in Apply(sys, Deliver(p)).net
  {
  }

  lemma CollectSettles(sys: System, p: Packet)
    requires p in sys.net && p.to.FrontEnd? && p.args.InternalResponse?
    ensures Apply(sys, Deliver(p)).fe == FE.Settle(sys.fe, p.from, p.args.id)
  {
  }

  /** Resend, serve and collect: exactly the awaited response is settled, from any network contents. */
  lemma ThreeSteps(sys: System, e: OnGoing, now: Time) returns (request: Packet, response: Packet)
    requires e in sys.fe.onGoing && IsRegister(e.register) && Overdue(e, now)
    ensures
      Apply(Apply(Apply(sys, FireTimer(now)), Deliver(request)), Deliver(response)).fe
      == FE.Settle(FE.Elapse(sys.fe, now), e.register, e.sessionId)
  {
    var fired := Apply(sys, FireTimer(now));
    request := Packet(FrontEnd, e.register, InternalRequest(e.sessionId, e.request));
    response := Packet(e.register, FrontEnd,
                       InternalResponse(e.sessionId, R.Answer(fired.Reg(e.register), e.request)));
    FireSends(sys, e, now);
    ServeAnswers(fired, request);
    CollectSettles(Apply(fired, Deliver(request)), response);
  }

  lemma RunOne(sys: System, a: Step)
    ensures Run(sys, [a]) == Apply(sys, a)
  {
    RunSnoc(sys, [], a);
    assert [] + [a] == [a];
  }

  lemma RunThree(sys: System, a: Step, b: Step, c: Step)
    ensures Run(sys, [a, b, c]) == Apply(Apply(Apply(sys, a), b), c)
  {
    RunOne(sys, a);
    RunSnoc(sys, [a], b);
    RunSnoc(sys, [a] + [b], c);
    assert [a] + [b] + [c] == [a, b, c];
  }

  lemma SettleOne(sys: System, e: OnGoing, now: Time, bound: Time) returns (steps: seq<Step>)
    requires e in sys.fe.onGoing && IsRegister(e.register) && Overdue(e, now) && now > bound
    ensures AllQuiet(steps, bound)
    ensures Run(sys, steps).fe == FE.Settle(FE.Elapse(sys.fe, now), e.register, e.sessionId)
  {
    var request, response := ThreeSteps(sys, e, now);
    steps := [FireTimer(now), Deliver(request), Deliver(response)];
    RunThree(sys, FireTimer(now), Deliver(request), Deliver(response));
  }

  /** Settling an awaited response leaves fewer entries. */
  lemma {:induction false} WithoutIsShorter(es: seq<OnGoing>, from: Address, s: SessionId)
    ensures |FE.Without(es, from, s)| <= |es|
    ensures FE.HasEntry(es, from, s) ==> |FE.Without(es, from, s)| < |es|
  {
    if es != [] {
      WithoutIsShorter(es[..|es| - 1], from, s);
    }
  }

  lemma SettleShrinks(fe: FE.State, e: OnGoing, now: Time)
    requires FE.Consistent(fe) && e in fe.onGoing
    ensures |FE.Settle(FE.Elapse(fe, now), e.register, e.sessionId).onGoing| < |fe.onGoing|
  {
    var fe' := FE.Elapse(fe, now);
    FE.ResendWaiting(fe.onGoing, now, e.register);
    assert e.sessionId in FE.Waiting(fe.onGoing, e.register);
    FE.HasEntryIffWaiting(fe'.onGoing, e.register, e.sessionId);
    WithoutIsShorter(fe'.onGoing, e.register, e.sessionId);
  }

  // ---- The whole backlog ----

  lemma {:induction false} RunInv(sys: System, steps: seq<Step>)
    requires Inv(sys)
    ensures Inv(Run(sys, steps))
  {
    if steps != [] {
      RunInv(sys, steps[..|steps| - 1]);
      StepKeeps(Run(sys, steps[..|steps| - 1]), steps[|steps| - 1]);
    }
  }

  lemma DrainOne(sys: System, bound: Time) returns (steps: seq<Step>)
    requires FE.Consistent(sys.fe) && sys.fe.onGoing != []
    ensures AllQuiet(steps, bound)
    ensures |Run(sys, steps).fe.onGoing| < |sys.fe.onGoing|
    ensures Run(sys, steps).fe.nextSessionId == sys.fe.nextSessionId
  {
    var e := sys.fe.onGoing[0];
    var now := LateEnough(sys.fe.onGoing, bound);
    steps := SettleOne(sys, e, now, bound);
    SettleShrinks(sys.fe, e, now);
  }

  lemma InvConsistent(sys: System)
    requires Inv(sys)
    ensures FE.Consistent(sys.fe)
  {
  }

  /** Only the number of awaited responses decreases. */
  lemma {:induction false} Drain(sys: System, bound: Time) returns (steps: seq<Step>)
    requires Inv(sys)
    ensures AllQuiet(steps, bound)
    ensures Run(sys, steps).fe.onGoing == []
    ensures Run(sys, steps).fe.nextSessionId == sys.fe.nextSessionId
    decreases |sys.fe.onGoing|
  {
    if sys.fe.onGoing == [] {
      steps := [];
    } else {
      InvConsistent(sys);
      var first := DrainOne(sys, bound);
      RunInv(sys, first);
      var rest := Drain(Run(sys, first), bound);
      steps := first + rest;
      RunAppend(sys, first, rest);
    }
  }

  lemma IdleIsAnswered(sys: System)
    requires Inv(sys) && sys.fe.onGoing == []
    ensures sys.fe.inFlight == map[]
    ensures forall s: SessionId :: s < sys.fe.nextSessionId ==> s in Answered(sys.history)
  {
    assert FE.Waiting([], Register1) == {} == FE.Waiting([], Register2);
    assert sys.fe.inFlight.Keys == {};
  }

  /**
   * Every reachable state, including those in which all messages have been lost, has a continuation of
   * late timers and deliveries alone after which every session ever opened has been answered.
   */
  lemma EveryCallCanBeAnswered(steps: seq<Step>, bound: Time)
    ensures exists more ::
      && AllQuiet(more, bound)
      && var sys, sys' := Run(Start, steps), Run(Start, steps + more);
         && sys'.fe.inFlight == map[]
         && forall s: SessionId :: s < sys.fe.nextSessionId ==> s in Answered(sys'.history)
  {
    RunKeeps(steps);
    var more := Drain(Run(Start, steps), bound);
    RunAppend(Start, steps, more);
    RunKeeps(steps + more);
    IdleIsAnswered(Run(Start, steps + more));
  }
}
