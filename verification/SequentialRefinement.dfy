/** If writes overlap nothing, FrontEnd4 and its two registers are a single append-only list. */
module SequentialRefinement {
  import opened RegisterMessages
  import opened RegisterProtocol
  import opened RegisterGuarantees
  import FE = FrontEndState
  import R = RegisterReactor
  import FrontEnd4Reactor

  /** The specification: one list, which serves any number of reads together or one write alone. */
  datatype Spec =
    | Rejected
    | Reading(list: seq<int>, readers: map<SessionId, ClientId>)
    | Writing(list: seq<int>, session: SessionId, client: ClientId, value: int)

  function SpecStep(spec: Spec, e: Event): Spec {
    match spec
    case Rejected => Rejected
    case Reading(list, readers) =>
      (match e
       case Invoked(s, client, Read) => Reading(list, readers[s := client])
       case Invoked(s, client, Write(x)) => if readers == map[] then Writing(list, s, client, x) else Rejected
       case Replied(s, client, response) =>
         if s in readers && readers[s] == client && response == Value(list) then Reading(list, readers - {s})
         else Rejected)
    case Writing(list, s, client, x) =>
      if e == Replied(s, client, Ack) then Reading(list + [x], map[]) else Rejected
  }

  function SpecRun(h: seq<Event>): Spec {
    if h == [] then Reading([], map[]) else SpecStep(SpecRun(h[..|h| - 1]), h[|h| - 1])
  }

  lemma SpecSnoc(h: seq<Event>, e: Event)
    ensures SpecRun(h + [e]) == SpecStep(SpecRun(h), e)
  {
    assert (h + [e])[..|h|] == h;
  }

  /** A read may be issued while only reads are in flight, a write while nothing is. */
  ghost predicate MayCall(sys: System, request: Request) {
    match request
    case Write(_) => sys.fe.inFlight == map[]
    case Read => forall s :: s in sys.fe.inFlight && s < |Ops(sys.history)| ==> Ops(sys.history)[s].request.Read?
  }

  /** Writes overlap nothing, and reads overlap only reads. */
  ghost predicate WritesAlone(steps: seq<Step>) {
    steps != [] ==>
      var front, step := steps[..|steps| - 1], steps[|steps| - 1];
      WritesAlone(front) && (step.CallClient? ==> MayCall(Run(Start, front), step.request))
  }

  // ---- The refinement relation ----

  /** A register has applied the pending write, or has not. */
  predicate Half(reg: R.State, list: seq<int>, s: SessionId, x: int) {
    reg.value == if s in reg.sessions then list + [x] else list
  }

  ghost predicate Matches(spec: Spec, ops: seq<Op>, inFlight: map<SessionId, ClientId>, reg1: R.State, reg2: R.State,
                          net: multiset<Packet>) {
    match spec
    case Rejected => false
    case Reading(list, readers) =>
      && inFlight == readers && reg1.value == list == reg2.value
      && (forall s :: s in readers ==> s < |ops| && ops[s].request == Read)
      && forall p :: p in net && p.args.InternalResponse? && p.args.id in readers ==> p.args.response == Value(list)
    case Writing(list, s, client, x) =>
      && s in inFlight && inFlight == map[s := client] && s < |ops| && ops[s].request == Write(x)
      && Half(reg1, list, s, x) && Half(reg2, list, s, x)
  }

  ghost predicate Follows(sys: System) {
    Matches(SpecRun(sys.history), Ops(sys.history), sys.fe.inFlight, sys.register1, sys.register2, sys.net)
  }

  ghost predicate Refines(sys: System) {
    Inv(sys) && Follows(sys)
  }

  // ---- A write that is no longer in flight has been applied by both registers ----

  lemma AnsweredWritesAreAcked(sys: System, id: SessionId)
    requires Inv(sys)
    requires id < |Ops(sys.history)| && Ops(sys.history)[id].request.Write? && id !in sys.fe.inFlight
    ensures id in Acked(sys.history)
  {
    var h := sys.history;
    AnsweredIffReplied(h, id);
    var i :| 0 <= i < |h| && h[i].Replied? && h[i].session == id;
    assert ReplyOk(Ops(h), sys.register1, sys.register2, h[i]);
    AckedIffReplied(h, id);
  }

  /** Serving a request changes a register only if it is the pending write, at its first delivery. */
  lemma ServeChanges(sys: System, r: Address, id: SessionId, request: Request)
    requires Inv(sys) && IsRegister(r)
    requires id < |Ops(sys.history)| && request == Ops(sys.history)[id].request
    ensures R.Handle(sys.Reg(r), id, request) == sys.Reg(r)
         || (id in sys.fe.inFlight && request.Write? && id !in sys.Reg(r).sessions)
  {
    if request.Write? && id !in sys.fe.inFlight {
      AnsweredWritesAreAcked(sys, id);
    }
  }

  // ---- Every step keeps the relation ----

  ghost predicate OnlyRequests(net: multiset<Packet>) {
    forall p :: p in net ==> p.args.InternalRequest?
  }

  lemma MoreRequestsMatch(spec: Spec, ops: seq<Op>, inFlight: map<SessionId, ClientId>, reg1: R.State, reg2: R.State,
                          net: multiset<Packet>, sent: multiset<Packet>)
    requires Matches(spec, ops, inFlight, reg1, reg2, net) && OnlyRequests(sent)
    ensures Matches(spec, ops, inFlight, reg1, reg2, net + sent)
  {
  }

  lemma CallMatches(spec: Spec, ops: seq<Op>, op: Op, inFlight: map<SessionId, ClientId>, reg1: R.State, reg2: R.State,
                    net: multiset<Packet>, sent: multiset<Packet>)
    requires Matches(spec, ops, inFlight, reg1, reg2, net) && OnlyRequests(sent)
    requires RegisterOk(ops, reg1) && RegisterOk(ops, reg2) && NetOk(ops, reg1, reg2, net)
    requires match op.request
      case Write(_) => inFlight == map[]
      case Read => forall s :: s in inFlight && s < |ops| ==> ops[s].request.Read?
    ensures Matches(SpecStep(spec, Invoked(|ops|, op.client, op.request)), ops + [op], inFlight[|ops| := op.client],
                    reg1, reg2, net + sent)
  {
    assert |ops| !in reg1.sessions && |ops| !in reg2.sessions;
    forall p | p in net + sent && p.args.InternalResponse?
      ensures p.args.id != |ops|
    {
      assert PacketOk(ops, reg1, reg2, p);
    }
  }

  lemma CallRefines(sys: System, at: Time, client: ClientId, request: Request)
    requires Refines(sys) && MayCall(sys, request)
    ensures Follows(Call(sys, at, client, request))
  {
    var h, s := sys.history, sys.fe.nextSessionId;
    var e := Invoked(s, client, request);
    SpecSnoc(h, e);
    Extend(h, e);
    PacketsMembers(FrontEnd, FE.OpenEvents(s, request));
    CallMatches(SpecRun(h), Ops(h), Op(client, request, Acked(h)), sys.fe.inFlight, sys.register1, sys.register2, sys.net,
                Packets(FrontEnd, FE.OpenEvents(s, request)));
  }

  lemma ServeMatches(spec: Spec, ops: seq<Op>, inFlight: map<SessionId, ClientId>, reg1: R.State, reg2: R.State,
                     net: multiset<Packet>, r: Address, id: SessionId, request: Request)
    requires Matches(spec, ops, inFlight, reg1, reg2, net) && IsRegister(r)
    requires id < |ops| && request == ops[id].request
    requires
      var reg := if r.Register1? then reg1 else reg2;
      R.Handle(reg, id, request) == reg || (id in inFlight && request.Write? && id !in reg.sessions)
    ensures
      var reg := if r.Register1? then reg1 else reg2;
      var reg' := R.Handle(reg, id, request);
      Matches(spec, ops, inFlight, if r.Register1? then reg' else reg1, if r.Register1? then reg2 else reg',
              net + multiset{Packet(r, FrontEnd, InternalResponse(id, R.Answer(reg, request)))})
  {
  }

  lemma ServeRefines(sys: System, r: Address, id: SessionId, request: Request)
    requires Refines(sys) && IsRegister(r)
    requires id < |Ops(sys.history)| && request == Ops(sys.history)[id].request
    ensures Follows(Serve(sys, r, FrontEnd, id, request))
  {
    ServeChanges(sys, r, id, request);
    ServeMatches(SpecRun(sys.history), Ops(sys.history), sys.fe.inFlight, sys.register1, sys.register2, sys.net,
                 r, id, request);
  }

  lemma ReplyMatches(spec: Spec, ops: seq<Op>, inFlight: map<SessionId, ClientId>, reg1: R.State, reg2: R.State,
                     net: multiset<Packet>, p: Packet)
    requires Matches(spec, ops, inFlight, reg1, reg2, net)
    requires p in net && p.args.InternalResponse? && p.args.id in inFlight && p.args.id < |ops|
    requires p.args.response.Ack? <==> ops[p.args.id].request.Write?
    requires p.args.response.Ack? ==> p.args.id in reg1.sessions && p.args.id in reg2.sessions
    ensures Matches(SpecStep(spec, Replied(p.args.id, inFlight[p.args.id], p.args.response)), ops,
                    inFlight - {p.args.id}, reg1, reg2, net)
  {
    if spec.Writing? {
      assert inFlight - {p.args.id} == map[];
    }
  }

  lemma CollectRefines(sys: System, p: Packet)
    requires Refines(sys) && p in sys.net && p.args.InternalResponse?
    ensures Follows(Collect(sys, p.from, p.args.id, p.args.response))
  {
    var h, id, response := sys.history, p.args.id, p.args.response;
    assert PacketOk(Ops(h), sys.register1, sys.register2, p);
    FE.SettleWaiting(sys.fe, p.from, id);
    if FE.Completes(sys.fe, p.from, id) {
      SpecSnoc(h, Replied(id, sys.fe.inFlight[id], response));
      CollectReply(sys, p.from, id, response);
      if response.Ack? {
        AckedByBoth(Ops(h), sys.fe, sys.register1, sys.register2, Answered(h), p.from, id);
      }
      ReplyMatches(SpecRun(h), Ops(h), sys.fe.inFlight, sys.register1, sys.register2, sys.net, p);
    }
  }

  lemma FireRefines(sys: System, now: Time)
    requires Refines(sys)
    ensures Follows(Fire(sys, now))
  {
    TimerSendsRequests(sys.fe, now);
    MoreRequestsMatch(SpecRun(sys.history), Ops(sys.history), sys.fe.inFlight, sys.register1, sys.register2, sys.net,
                      Packets(FrontEnd, FrontEnd4Reactor.TimerEvents(sys.fe, now)));
  }

  lemma TimerSendsRequests(fe: FE.State, now: Time)
    ensures OnlyRequests(Packets(FrontEnd, FrontEnd4Reactor.TimerEvents(fe, now)))
  {
    PacketsMembers(FrontEnd, FrontEnd4Reactor.TimerEvents(fe, now));
    FE.ResendEventsMembers(fe.onGoing, now);
  }

  lemma FewerPacketsMatch(sys: System, sys': System)
    requires Follows(sys) && sys' == sys.(net := sys'.net)
    requires forall p :: p in sys'.net ==> p in sys.net
    ensures Follows(sys')
  {
  }

  lemma DeliverRefines(sys: System, p: Packet)
    requires Refines(sys) && p in sys.net
    ensures Follows(Apply(sys, Deliver(p)))
  {
    assert PacketOk(Ops(sys.history), sys.register1, sys.register2, p);
    if p.args.InternalRequest? {
      DeliverRequestRefines(sys, p);
    } else {
      CollectRefines(sys, p);
      FewerPacketsMatch(Collect(sys, p.from, p.args.id, p.args.response), Apply(sys, Deliver(p)));
    }
  }

  lemma DeliverRequestRefines(sys: System, p: Packet)
    requires Refines(sys) && p in sys.net && p.args.InternalRequest?
    requires PacketOk(Ops(sys.history), sys.register1, sys.register2, p)
    ensures Follows(Apply(sys, Deliver(p)))
  {
    var rest := sys.(net := sys.net - multiset{p});
    StepKeeps(sys, Drop(p));
    FewerPacketsMatch(sys, rest);
    ServeRefines(rest, p.to, p.args.id, p.args.request);
  }

  lemma StepRefines(sys: System, step: Step)
    requires Refines(sys) && (step.CallClient? ==> MayCall(sys, step.request))
    ensures Follows(Apply(sys, step))
  {
    match step
    case CallClient(at, client, request) => CallRefines(sys, at, client, request);
    case FireTimer(now) => FireRefines(sys, now);
    case Deliver(p) =>
      if p in sys.net {
        DeliverRefines(sys, p);
      }
    case _ =>
      FewerPacketsMatch(sys, Apply(sys, step));
  }

  /** If writes overlap nothing and reads overlap only reads, the one-list specification accepts the history. */
  lemma {:induction false} RefinesListIfWritesAlone(steps: seq<Step>)
    requires WritesAlone(steps)
    ensures Refines(Run(Start, steps)) && !SpecRun(Run(Start, steps).history).Rejected?
  {
    if steps == [] {
      StartOk();
      assert Start.history == [];
    } else {
      var front, step := steps[..|steps| - 1], steps[|steps| - 1];
      RefinesListIfWritesAlone(front);
      StepKeeps(Run(Start, front), step);
      StepRefines(Run(Start, front), step);
    }
  }

  // ---- Reads return the acknowledged writes, in order ----

  /** The arguments of the acknowledged writes, in the order of the acknowledgements. */
  function AckedValues(h: seq<Event>): seq<int> {
    if h == [] then [] else
      var front, e := h[..|h| - 1], h[|h| - 1];
      AckedValues(front) +
      if e.Replied? && e.response.Ack? && e.session < |Ops(front)| && Ops(front)[e.session].request.Write?
      then [Ops(front)[e.session].request.value] else []
  }

  lemma {:induction false} SpecListIsAckedValues(h: seq<Event>)
    requires Legal(h) && !SpecRun(h).Rejected?
    ensures SpecRun(h).list == AckedValues(h)
    ensures SpecRun(h).Reading? ==>
      forall s: SessionId :: s in SpecRun(h).readers ==> s < |Ops(h)| && Ops(h)[s].request == Read
    ensures SpecRun(h).Writing? ==>
      SpecRun(h).session < |Ops(h)| && Ops(h)[SpecRun(h).session].request == Write(SpecRun(h).value)
  {
    if h != [] {
      var front, e := h[..|h| - 1], h[|h| - 1];
      SpecListIsAckedValues(front);
      Extend(front, e);
      assert h == front + [e];
    }
  }

  /** Then every read is answered with exactly the acknowledged writes, in their order. */
  lemma ReadsReturnAckedWrites(steps: seq<Step>, k: nat)
    requires WritesAlone(steps)
    requires
      var h := Run(Start, steps).history;
      k < |h| && h[k].Replied? && h[k].response.Value?
    ensures
      var h := Run(Start, steps).history;
      h[k].response.values == AckedValues(h[..k])
  {
    var h := Run(Start, steps).history;
    RefinesListIfWritesAlone(steps);
    HistoriesAreLegal(steps);
    LegalPrefix(h, k);
    SpecPrefix(h, k);
    SpecListIsAckedValues(h[..k]);
  }

  lemma {:induction false} SpecPrefix(h: seq<Event>, k: nat)
    requires k < |h| && !SpecRun(h).Rejected?
    ensures !SpecRun(h[..k]).Rejected? && !SpecStep(SpecRun(h[..k]), h[k]).Rejected?
  {
    var front := h[..|h| - 1];
    if k < |front| {
      SpecPrefix(front, k);
      assert front[..k] == h[..k];
    }
  }
}
