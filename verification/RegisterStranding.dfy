/** Exactly when the timers that are pending and the packets that are under way can still answer every client. */
module RegisterStranding {
  import opened RegisterMessages
  import opened RegisterProtocol
  import opened RegisterTimers
  import RegisterProgress
  import FE = FrontEndState
  import FrontEnd4Reactor
  import R = RegisterReactor

  // ---- One pending timer is enough ----

  /** A timer that fires when everything is overdue restarts everything, and a new timer covers it. */
  lemma FireCoversAll(fe: FE.State, timers: multiset<Time>, due: Time, now: Time)
    requires due in timers && forall e :: e in fe.onGoing ==> Overdue(e, now)
    ensures AllTimed(FE.Elapse(fe, now).onGoing,
                     timers - multiset{due} + TimersOf(FrontEnd4Reactor.TimerEvents(fe, now), now))
  {
    if fe.onGoing == [] {
      assert FE.Elapse(fe, now).onGoing == [];
    } else {
      assert fe.onGoing[0] in fe.onGoing;
      FireKeepsTimersIff(fe, timers, due, now);
    }
  }

  lemma FireOneTimer(t: Timed, due: Time) returns (steps: seq<TimedStep>)
    requires due in t.timers
    ensures FiresLate(steps) && OnlyTimersAndDeliveries(steps)
    ensures AllTimed(RunTimed(t, steps).sys.fe.onGoing, RunTimed(t, steps).timers)
    ensures RunTimed(t, steps).sys.fe.nextSessionId == t.sys.fe.nextSessionId
  {
    var now := RegisterProgress.LateEnough(t.sys.fe.onGoing, due);
    TimedSnoc(t, [], Fire(due, now));
    FireCoversAll(t.sys.fe, t.timers, due, now);
    steps := [] + [Fire(due, now)];
  }

  lemma Pick<T>(m: multiset<T>) returns (x: T)
    requires m != multiset{}
    ensures x in m
  {
    x :| x in m;
  }

  lemma DrainWithTimer(t: Timed, due: Time) returns (steps: seq<TimedStep>)
    requires Inv(t.sys) && due in t.timers
    ensures FiresLate(steps) && OnlyTimersAndDeliveries(steps)
    ensures RunTimed(t, steps).sys.fe.onGoing == []
    ensures RunTimed(t, steps).sys.fe.nextSessionId == t.sys.fe.nextSessionId
  {
    var first := FireOneTimer(t, due);
    RunTimedInv(t, first);
    var rest := DrainTimed(RunTimed(t, first));
    steps := first + rest;
    TimedAppend(t, first, rest);
  }

  /**
   * As long as some timer is pending, whatever happened before and even with all packets lost, the pending timers
   * and the deliveries they cause can answer every call.
   */
  lemma PendingTimersCanAnswerAll(past: seq<TimedStep>, t: Timed) returns (steps: seq<TimedStep>)
    requires t == RunTimed(Begin, past) && t.timers != multiset{}
    ensures FiresLate(steps) && OnlyTimersAndDeliveries(steps)
    ensures RunTimed(t, steps).sys.fe.inFlight == map[]
    ensures forall s: SessionId :: s < t.sys.fe.nextSessionId ==> s in Answered(RunTimed(t, steps).sys.history)
  {
    TimedInv(past);
    var due := Pick(t.timers);
    steps := DrainWithTimer(t, due);
    RunTimedInv(t, steps);
    RegisterProgress.IdleIsAnswered(RunTimed(t, steps).sys);
  }

  // ---- Without timers, a response is awaited in vain unless its request or the response is under way ----

  predicate About(p: Packet, r: Address, s: SessionId) {
    || (p.to == r && p.args.InternalRequest? && p.args.id == s)
    || (p.from == r && p.to.FrontEnd? && p.args.InternalResponse? && p.args.id == s)
  }

  ghost predicate UnderWay(net: multiset<Packet>, r: Address, s: SessionId) {
    exists p :: p in net && About(p, r, s)
  }

  /** Every awaited response, or the request for it, is under way. */
  ghost predicate Backed(sys: System) {
    forall e :: e in sys.fe.onGoing ==> UnderWay(sys.net, e.register, e.sessionId)
  }

  ghost predicate InVain(t: Timed, r: Address, s: SessionId) {
    && t.timers == multiset{} && IsRegister(r)
    && s in FE.Waiting(t.sys.fe.onGoing, r) && !UnderWay(t.sys.net, r, s)
  }

  lemma ServeInVain(sys: System, p: Packet, r: Address, s: SessionId)
    requires p in sys.net && IsRegister(p.to) && p.args.InternalRequest? && !UnderWay(sys.net, r, s)
    ensures !UnderWay(Apply(sys, Deliver(p)).net, r, s) && Apply(sys, Deliver(p)).fe == sys.fe
  {
    assert !About(p, r, s);
    var net' := Apply(sys, Deliver(p)).net;
    forall q | q in net'
      ensures !About(q, r, s)
    {
      assert q in sys.net || (q.from == p.to && q.args == InternalResponse(p.args.id, q.args.response));
    }
  }

  lemma CollectInVain(sys: System, p: Packet, r: Address, s: SessionId)
    requires FE.Consistent(sys.fe) && p in sys.net && p.to.FrontEnd? && p.args.InternalResponse? && IsRegister(r)
    requires !UnderWay(sys.net, r, s) && s in FE.Waiting(sys.fe.onGoing, r)
    ensures !UnderWay(Apply(sys, Deliver(p)).net, r, s) && s in FE.Waiting(Apply(sys, Deliver(p)).fe.onGoing, r)
  {
    assert !About(p, r, s);
    RegisterProgress.CollectSettles(sys, p);
    FE.SettleWaiting(sys.fe, p.from, p.args.id);
  }

  lemma DeliverInVain(sys: System, p: Packet, r: Address, s: SessionId)
    requires FE.Consistent(sys.fe) && IsRegister(r) && !UnderWay(sys.net, r, s) && s in FE.Waiting(sys.fe.onGoing, r)
    ensures !UnderWay(Apply(sys, Deliver(p)).net, r, s) && s in FE.Waiting(Apply(sys, Deliver(p)).fe.onGoing, r)
  {
    if p in sys.net && IsRegister(p.to) && p.args.InternalRequest? {
      ServeInVain(sys, p, r, s);
    } else if p in sys.net && p.to.FrontEnd? && p.args.InternalResponse? {
      CollectInVain(sys, p, r, s);
    }
  }

  lemma NextInVain(t: Timed, step: TimedStep, r: Address, s: SessionId)
    requires FE.Consistent(t.sys.fe) && InVain(t, r, s) && !(step.Untimed? && step.step.CallClient?)
    ensures InVain(Next(t, step), r, s)
  {
    match step
    case Untimed(Deliver(p)) => DeliverInVain(t.sys, p, r, s);
    case _ =>
  }

  predicate CallFree(steps: seq<TimedStep>) {
    forall i :: 0 <= i < |steps| ==> !(steps[i].Untimed? && steps[i].step.CallClient?)
  }

  /** Until another client calls, such a response is awaited for ever. */
  lemma {:induction false} InVainStays(t: Timed, steps: seq<TimedStep>, r: Address, s: SessionId)
    requires Inv(t.sys) && InVain(t, r, s) && CallFree(steps)
    ensures InVain(RunTimed(t, steps), r, s)
  {
    if steps != [] {
      InVainStays(t, steps[..|steps| - 1], r, s);
      RunTimedInv(t, steps[..|steps| - 1]);
      RegisterProgress.InvConsistent(RunTimed(t, steps[..|steps| - 1]).sys);
      NextInVain(RunTimed(t, steps[..|steps| - 1]), steps[|steps| - 1], r, s);
    }
  }

  lemma InVainIsInFlight(sys: System, r: Address, s: SessionId)
    requires Inv(sys) && IsRegister(r) && s in FE.Waiting(sys.fe.onGoing, r)
    ensures s in sys.fe.inFlight
  {
    RegisterProgress.InvConsistent(sys);
  }

  // ---- With everything under way, deliveries alone answer everyone ----

  lemma StillUnderWay(net: multiset<Packet>, net': multiset<Packet>, p: Packet, r: Address, s: SessionId)
    requires UnderWay(net, r, s) && !About(p, r, s) && forall q :: q in net && q != p ==> q in net'
    ensures UnderWay(net', r, s)
  {
  }

  /** Other responses that were under way still are. */
  ghost predicate OthersUnderWay(net: multiset<Packet>, net': multiset<Packet>, r: Address, s: SessionId) {
    forall r', s' :: (r' != r || s' != s) && IsRegister(r') && UnderWay(net, r', s') ==> UnderWay(net', r', s')
  }

  lemma OneLess(net: multiset<Packet>, net': multiset<Packet>, p: Packet, r: Address, s: SessionId)
    requires IsRegister(r) && About(p, r, s) && (p.from.FrontEnd? || p.to.FrontEnd?)
    requires forall q :: q in net && q != p ==> q in net'
    ensures OthersUnderWay(net, net', r, s)
  {
    forall r', s' | (r' != r || s' != s) && IsRegister(r') && UnderWay(net, r', s')
      ensures UnderWay(net', r', s')
    {
      StillUnderWay(net, net', p, r', s');
    }
  }

  lemma DeliverResponse(sys: System, p: Packet, r: Address, s: SessionId)
    requires p in sys.net && IsRegister(r) && About(p, r, s) && p.args.InternalResponse?
    ensures Apply(sys, Deliver(p)).fe == FE.Settle(sys.fe, r, s)
    ensures OthersUnderWay(sys.net, Apply(sys, Deliver(p)).net, r, s)
  {
    RegisterProgress.CollectSettles(sys, p);
    OneLess(sys.net, Apply(sys, Deliver(p)).net, p, r, s);
  }

  lemma DeliverRequest(sys: System, p: Packet, r: Address, s: SessionId) returns (response: Packet)
    requires p in sys.net && IsRegister(r) && About(p, r, s) && p.args.InternalRequest? && p.from.FrontEnd?
    ensures Apply(sys, Deliver(p)).fe == sys.fe
    ensures response in Apply(sys, Deliver(p)).net && About(response, r, s) && response.args.InternalResponse?
    ensures OthersUnderWay(sys.net, Apply(sys, Deliver(p)).net, r, s)
  {
    RegisterProgress.ServeAnswers(sys, p);
    response := Packet(r, FrontEnd, InternalResponse(s, R.Answer(sys.Reg(r), p.args.request)));
    OneLess(sys.net, Apply(sys, Deliver(p)).net, p, r, s);
  }

  lemma OthersStayUnderWay(net: multiset<Packet>, net': multiset<Packet>, net'': multiset<Packet>, r: Address, s: SessionId)
    requires OthersUnderWay(net, net', r, s) && OthersUnderWay(net', net'', r, s)
    ensures OthersUnderWay(net, net'', r, s)
  {
  }

  lemma SettleByRequest(t: Timed, p: Packet, r: Address, s: SessionId) returns (steps: seq<TimedStep>)
    requires p in t.sys.net && IsRegister(r) && About(p, r, s) && p.args.InternalRequest? && p.from.FrontEnd?
    ensures OnlyTimersAndDeliveries(steps)
    ensures RunTimed(t, steps).sys.fe == FE.Settle(t.sys.fe, r, s)
    ensures OthersUnderWay(t.sys.net, RunTimed(t, steps).sys.net, r, s)
  {
    RunDeliver(t, [], p);
    var served := [] + [Untimed(Deliver(p))];
    var response := DeliverRequest(t.sys, p, r, s);
    var sys' := RunTimed(t, served).sys;
    RunDeliver(t, served, response);
    DeliverResponse(sys', response, r, s);
    steps := served + [Untimed(Deliver(response))];
    OthersStayUnderWay(t.sys.net, sys'.net, RunTimed(t, steps).sys.net, r, s);
  }

  lemma SettleByDelivery(t: Timed, r: Address, s: SessionId) returns (steps: seq<TimedStep>)
    requires Inv(t.sys) && IsRegister(r) && UnderWay(t.sys.net, r, s)
    ensures OnlyTimersAndDeliveries(steps)
    ensures RunTimed(t, steps).sys.fe == FE.Settle(t.sys.fe, r, s)
    ensures OthersUnderWay(t.sys.net, RunTimed(t, steps).sys.net, r, s)
  {
    var p :| p in t.sys.net && About(p, r, s);
    assert PacketOk(Ops(t.sys.history), t.sys.register1, t.sys.register2, p);
    if p.args.InternalRequest? {
      steps := SettleByRequest(t, p, r, s);
    } else {
      RunDeliver(t, [], p);
      DeliverResponse(t.sys, p, r, s);
      steps := [] + [Untimed(Deliver(p))];
    }
  }

  lemma SettleKeepsBacked(sys: System, sys': System, r: Address, s: SessionId)
    requires FE.Consistent(sys.fe) && Backed(sys) && IsRegister(r) && s in FE.Waiting(sys.fe.onGoing, r)
    requires sys'.fe == FE.Settle(sys.fe, r, s) && OthersUnderWay(sys.net, sys'.net, r, s)
    ensures Backed(sys') && |sys'.fe.onGoing| < |sys.fe.onGoing|
  {
    FE.WithoutMembers(sys.fe.onGoing, r, s);
    FE.HasEntryIffWaiting(sys.fe.onGoing, r, s);
    RegisterProgress.WithoutIsShorter(sys.fe.onGoing, r, s);
  }

  lemma {:induction false} DeliverAll(t: Timed) returns (steps: seq<TimedStep>)
    requires Inv(t.sys) && Backed(t.sys)
    ensures OnlyTimersAndDeliveries(steps) && RunTimed(t, steps).sys.fe.inFlight == map[]
    decreases |t.sys.fe.onGoing|
  {
    if t.sys.fe.onGoing == [] {
      RegisterProgress.IdleIsAnswered(t.sys);
      steps := [];
    } else {
      RegisterProgress.InvConsistent(t.sys);
      var e := t.sys.fe.onGoing[0];
      var first := SettleByDelivery(t, e.register, e.sessionId);
      RunTimedInv(t, first);
      SettleKeepsBacked(t.sys, RunTimed(t, first).sys, e.register, e.sessionId);
      var rest := DeliverAll(RunTimed(t, first));
      steps := first + rest;
      TimedAppend(t, first, rest);
    }
  }

  // ---- The exact condition ----

  ghost predicate AnswersAll(t: Timed, steps: seq<TimedStep>) {
    RunTimed(t, steps).sys.fe.inFlight == map[]
  }

  lemma ScheduleIsCallFree(steps: seq<TimedStep>)
    requires OnlyTimersAndDeliveries(steps)
    ensures CallFree(steps)
  {
  }

  lemma UnbackedIsNeverAnswered(t: Timed, steps: seq<TimedStep>)
    requires Inv(t.sys) && t.timers == multiset{} && !Backed(t.sys) && CallFree(steps)
    ensures !AnswersAll(t, steps)
  {
    RegisterProgress.InvConsistent(t.sys);
    var e :| e in t.sys.fe.onGoing && !UnderWay(t.sys.net, e.register, e.sessionId);
    InVainStays(t, steps, e.register, e.sessionId);
    RunTimedInv(t, steps);
    InVainIsInFlight(RunTimed(t, steps).sys, e.register, e.sessionId);
  }

  lemma AnswerAll(past: seq<TimedStep>, t: Timed) returns (steps: seq<TimedStep>)
    requires t == RunTimed(Begin, past) && (t.timers != multiset{} || Backed(t.sys))
    ensures OnlyTimersAndDeliveries(steps) && AnswersAll(t, steps)
  {
    if t.timers != multiset{} {
      steps := PendingTimersCanAnswerAll(past, t);
    } else {
      TimedInv(past);
      steps := DeliverAll(t);
    }
  }

  /**
   * In every reachable state: without another call everyone can still be answered if and only if some timer is
   * pending, or each awaited response or the request for it is under way. Losses and duplicates do not help.
   */
  lemma AnswerableIff(past: seq<TimedStep>, t: Timed)
    requires t == RunTimed(Begin, past)
    ensures (exists steps :: OnlyTimersAndDeliveries(steps) && AnswersAll(t, steps))
       <==> t.timers != multiset{} || Backed(t.sys)
    ensures (exists steps :: CallFree(steps) && AnswersAll(t, steps)) <==> t.timers != multiset{} || Backed(t.sys)
  {
    TimedInv(past);
    if t.timers != multiset{} || Backed(t.sys) {
      var steps := AnswerAll(past, t);
      ScheduleIsCallFree(steps);
    } else {
      forall steps | CallFree(steps)
        ensures !AnswersAll(t, steps)
      {
        UnbackedIsNeverAnswered(t, steps);
      }
      forall steps | OnlyTimersAndDeliveries(steps)
        ensures !AnswersAll(t, steps)
      {
        ScheduleIsCallFree(steps);
        UnbackedIsNeverAnswered(t, steps);
      }
    }
  }

  lemma NothingIsBacked(sys: System)
    requires FE.Consistent(sys.fe) && sys.fe.inFlight != map[] && sys.net == multiset{}
    ensures !Backed(sys)
  {
    FE.EntriesPerSession(sys.fe);
    var e := sys.fe.onGoing[0];
    assert e in sys.fe.onGoing && !UnderWay(sys.net, e.register, e.sessionId);
  }

  /** So once all packets are lost, somebody is stranded exactly if a session is in flight and no timer is pending. */
  lemma StrandedIff(past: seq<TimedStep>, t: Timed)
    requires t == RunTimed(Begin, past) && t.sys.net == multiset{}
    ensures (exists steps :: OnlyTimersAndDeliveries(steps) && AnswersAll(t, steps))
       <==> t.sys.fe.inFlight == map[] || t.timers != multiset{}
  {
    AnswerableIff(past, t);
    TimedInv(past);
    RegisterProgress.InvConsistent(t.sys);
    if t.sys.fe.inFlight == map[] {
      IdleHasNoEntries(t.sys);
    } else {
      NothingIsBacked(t.sys);
    }
  }

  // ---- A timer that fires exactly on time can strand a session ----

  /** Nothing is under way and nothing will happen. */
  predicate Stranded(t: Timed) {
    t.sys.net == multiset{} && t.timers == multiset{} && t.sys.fe.inFlight != map[]
  }

  /** A stranded session waits until another client calls. */
  lemma {:induction false} StrandedStays(t: Timed, steps: seq<TimedStep>)
    requires Stranded(t) && CallFree(steps)
    ensures RunTimed(t, steps) == t
  {
    if steps != [] {
      StrandedStays(t, steps[..|steps| - 1]);
      assert t.sys.net - multiset{} == t.sys.net;
    }
  }

  lemma StrandedForEver(t: Timed, steps: seq<TimedStep>)
    requires Stranded(RunTimed(t, steps))
    ensures forall more :: CallFree(more) ==> RunTimed(t, steps + more) == RunTimed(t, steps)
  {
    forall more | CallFree(more)
      ensures RunTimed(t, steps + more) == RunTimed(t, steps)
    {
      TimedAppend(t, steps, more);
      StrandedStays(RunTimed(t, steps), more);
    }
  }

  lemma {:induction false} DropAll(t: Timed) returns (steps: seq<TimedStep>)
    ensures RunTimed(t, steps) == t.(sys := t.sys.(net := multiset{})) && CallFree(steps)
    decreases |t.sys.net|
  {
    if t.sys.net == multiset{} {
      steps := [];
    } else {
      var p :| p in t.sys.net;
      TimedSnoc(t, [], Untimed(Drop(p)));
      var t' := RunTimed(t, [] + [Untimed(Drop(p))]);
      assert t' == t.(sys := t.sys.(net := t.sys.net - multiset{p}));
      var rest := DropAll(t');
      steps := [] + [Untimed(Drop(p))] + rest;
      TimedAppend(t, [] + [Untimed(Drop(p))], rest);
    }
  }

  /** Nothing is overdue exactly at the due time, so nothing is sent and no timer is renewed. */
  lemma OnTimeDoesNothing(t: Timed, due: Time)
    requires t.timers == multiset{due} && forall e :: e in t.sys.fe.onGoing ==> !Overdue(e, due)
    ensures Next(t, Fire(due, due)).timers == multiset{}
    ensures Next(t, Fire(due, due)).sys.fe.inFlight == t.sys.fe.inFlight
  {
    FrontEnd4Reactor.TimerRenewedIffOverdue(t.sys.fe, due);
  }

  /**
   * If the only pending timer fires exactly when it is due and no response is overdue by then, losing the packets
   * under way strands the sessions in flight: whatever the network and the scheduler do, nobody is answered.
   */
  lemma OnTimeTimerStrands(t: Timed, due: Time) returns (steps: seq<TimedStep>)
    requires t.timers == multiset{due} && t.sys.fe.inFlight != map[]
    requires forall e :: e in t.sys.fe.onGoing ==> !Overdue(e, due)
    ensures CallFree(steps) && Stranded(RunTimed(t, steps))
    ensures forall more :: CallFree(more) ==> RunTimed(t, steps + more) == RunTimed(t, steps)
  {
    OnTimeDoesNothing(t, due);
    TimedSnoc(t, [], Fire(due, due));
    var fired := [] + [Fire(due, due)];
    var drops := DropAll(RunTimed(t, fired));
    steps := fired + drops;
    TimedAppend(t, fired, drops);
    StrandedForEver(t, steps);
  }

  /** A call on an idle frontend is such a state. */
  lemma AnyCallMayBeStranded(past: seq<TimedStep>, at: Time, client: ClientId, request: Request)
    returns (steps: seq<TimedStep>)
    requires RunTimed(Begin, past).timers == multiset{} && RunTimed(Begin, past).sys.fe.inFlight == map[]
    ensures
      var called := RunTimed(Begin, past + [Untimed(CallClient(at, client, request))]);
      && CallFree(steps) && Stranded(RunTimed(called, steps))
      && forall more :: CallFree(more) ==> RunTimed(called, steps + more) == RunTimed(called, steps)
  {
    var idle, call := RunTimed(Begin, past), Untimed(CallClient(at, client, request));
    TimedSnoc(Begin, past, call);
    TimedInv(past);
    IdleHasNoEntries(idle.sys);
    assert idle.timers + multiset{at + RESEND_TIMER} == multiset{at + RESEND_TIMER};
    steps := OnTimeTimerStrands(Next(idle, call), at + RESEND_TIMER);
  }

  lemma IdleHasNoEntries(sys: System)
    requires Inv(sys) && sys.fe.inFlight == map[]
    ensures sys.fe.onGoing == []
  {
    FE.EntriesPerSession(sys.fe);
  }
}
