/**
 * FrontEnd4 and two registers over a network that loses, duplicates and reorders packets, with the
 * client-side history as a ghost record.
 */
module RegisterProtocol {
  import opened RegisterMessages
  import FE = FrontEndState
  import FrontEnd4Reactor
  import R = RegisterReactor

  datatype Packet = Packet(from: Address, to: Address, args: Args)

  datatype Event =
    | Invoked(session: SessionId, client: ClientId, request: Request)
    | Replied(session: SessionId, client: ClientId, response: Response)

  datatype System = System(
    fe: FE.State,
    register1: R.State,
    register2: R.State,
    net: multiset<Packet>,
    history: seq<Event>)
  {
    function Reg(r: Address): R.State
      requires IsRegister(r)
    {
      if r.Register1? then register1 else register2
    }

    function SetReg(r: Address, s: R.State): System
      requires IsRegister(r)
    {
      if r.Register1? then this.(register1 := s) else this.(register2 := s)
    }
  }

  datatype Step =
    | CallClient(at: Time, client: ClientId, request: Request)
    | Deliver(packet: Packet)
    | FireTimer(now: Time)
    | Drop(packet: Packet)
    | Duplicate(packet: Packet)

  const Start := System(FE.Initial, R.Initial, R.Initial, multiset{}, [])

  /** The network carries the internal messages; timers and client replies do not travel on it. */
  function Packets(from: Address, outs: seq<OutEvent>): multiset<Packet> {
    if outs == [] then multiset{} else
      var o := outs[|outs| - 1];
      Packets(from, outs[..|outs| - 1]) +
      if o.args.InternalRequest? || o.args.InternalResponse? then multiset{Packet(from, o.to, o.args)} else multiset{}
  }

  function Call(sys: System, at: Time, client: ClientId, request: Request): System {
    sys.(fe := FE.Open(sys.fe, at, client, request),
         net := sys.net + Packets(FrontEnd, FE.OpenEvents(sys.fe.nextSessionId, request)),
         history := sys.history + [Invoked(sys.fe.nextSessionId, client, request)])
  }

  function Serve(sys: System, r: Address, client: Address, id: SessionId, request: Request): System
    requires IsRegister(r)
  {
    var reg := sys.Reg(r);
    sys.SetReg(r, R.Handle(reg, id, request))
       .(net := sys.net + multiset{Packet(r, client, InternalResponse(id, R.Answer(reg, request)))})
  }

  function Collect(sys: System, from: Address, id: SessionId, response: Response): System {
    var outs := FrontEnd4Reactor.ResponseEvents(sys.fe, from, id, response);
    sys.(fe := FE.Settle(sys.fe, from, id),
         history := if outs == [] then sys.history
                    else sys.history + [Replied(id, outs[0].args.clientId, outs[0].args.reply)])
  }

  function Fire(sys: System, now: Time): System {
    sys.(fe := FE.Elapse(sys.fe, now),
         net := sys.net + Packets(FrontEnd, FrontEnd4Reactor.TimerEvents(sys.fe, now)))
  }

  /** Steps on packets that are not in the network do nothing. */
  function Apply(sys: System, step: Step): System {
    match step
    case CallClient(at, client, request) => Call(sys, at, client, request)
    case FireTimer(now) => Fire(sys, now)
    case Drop(p) => sys.(net := sys.net - multiset{p})
    case Duplicate(p) => if p in sys.net then sys.(net := sys.net + multiset{p}) else sys
    case Deliver(p) =>
      if p !in sys.net then sys else
        var rest := sys.(net := sys.net - multiset{p});
        if IsRegister(p.to) && p.args.InternalRequest? then Serve(rest, p.to, p.from, p.args.id, p.args.request)
        else if p.to.FrontEnd? && p.args.InternalResponse? then Collect(rest, p.from, p.args.id, p.args.response)
        else rest
  }

  function Run(sys: System, steps: seq<Step>): System {
    if steps == [] then sys else Apply(Run(sys, steps[..|steps| - 1]), steps[|steps| - 1])
  }

  // ---- What the history says ----

  /** A client operation; its session id is its position among the operations. */
  datatype Op = Op(client: ClientId, request: Request, ackedBefore: set<SessionId>)

  /** The writes acknowledged so far. */
  function Acked(h: seq<Event>): set<SessionId> {
    if h == [] then {} else
      var e := h[|h| - 1];
      Acked(h[..|h| - 1]) + if e.Replied? && e.response.Ack? then {e.session} else {}
  }

  function Ops(h: seq<Event>): seq<Op> {
    if h == [] then [] else
      var front := h[..|h| - 1];
      var e := h[|h| - 1];
      Ops(front) + if e.Invoked? then [Op(e.client, e.request, Acked(front))] else []
  }

  /** The sessions replied to, in the order of the replies. */
  function Answered(h: seq<Event>): seq<SessionId> {
    if h == [] then [] else
      var e := h[|h| - 1];
      Answered(h[..|h| - 1]) + if e.Replied? then [e.session] else []
  }

  lemma Extend(h: seq<Event>, e: Event)
    ensures Acked(h + [e]) == Acked(h) + if e.Replied? && e.response.Ack? then {e.session} else {}
    ensures Ops(h + [e]) == Ops(h) + if e.Invoked? then [Op(e.client, e.request, Acked(h))] else []
    ensures Answered(h + [e]) == Answered(h) + if e.Replied? then [e.session] else []
  {
    assert (h + [e])[..|h|] == h;
  }

  // ---- The invariant ----

  /** A value that a register returned: a prefix of its list, holding all writes acknowledged before the call. */
  ghost predicate Sees(op: Op, reg: R.State, values: seq<int>) {
    && values <= reg.value
    && |values| <= |reg.sessions|
    && forall w :: w in op.ackedBefore ==> w in reg.sessions[..|values|]
  }

  ghost predicate ResponseOk(op: Op, id: SessionId, reg: R.State, response: Response) {
    match response
    case Ack => op.request.Write? && id in reg.sessions
    case Value(values) => op.request.Read? && Sees(op, reg, values)
  }

  ghost predicate PacketOk(ops: seq<Op>, reg1: R.State, reg2: R.State, p: Packet) {
    match p.args
    case InternalRequest(id, request) =>
      p.from.FrontEnd? && IsRegister(p.to) && id < |ops| && request == ops[id].request
    case InternalResponse(id, response) =>
      && p.to.FrontEnd? && IsRegister(p.from) && id < |ops|
      && ResponseOk(ops[id], id, if p.from.Register1? then reg1 else reg2, response)
    case _ => false
  }

  ghost predicate NetOk(ops: seq<Op>, reg1: R.State, reg2: R.State, net: multiset<Packet>) {
    forall p :: p in net ==> PacketOk(ops, reg1, reg2, p)
  }

  ghost predicate RegisterOk(ops: seq<Op>, reg: R.State) {
    && R.Matched(reg)
    && forall i :: 0 <= i < |reg.sessions| ==>
         reg.sessions[i] < |ops| && ops[reg.sessions[i]].request == Write(reg.value[i])
  }

  ghost predicate EntryOk(ops: seq<Op>, e: OnGoing) {
    e.sessionId < |ops| && e.request == ops[e.sessionId].request
  }

  ghost predicate FrontEndOk(ops: seq<Op>, fe: FE.State) {
    && |ops| == fe.nextSessionId
    && FE.Consistent(fe)
    && (forall s :: s in fe.inFlight ==> s < |ops| && fe.inFlight[s] == ops[s].client)
    && (forall i :: 0 <= i < |fe.onGoing| ==> EntryOk(ops, fe.onGoing[i]))
  }

  /** A register that a write no longer waits for holds that write. */
  ghost predicate HalfDone(ops: seq<Op>, inFlight: set<SessionId>, waiting: set<SessionId>, reg: R.State) {
    forall s :: s in inFlight && s !in waiting && s < |ops| ==> ops[s].request.Write? ==> s in reg.sessions
  }

  /** Every acknowledged write is in the register. */
  ghost predicate Durable(acked: set<SessionId>, reg: R.State) {
    forall s :: s in acked ==> s in reg.sessions
  }

  /** The fences of the operations are acknowledged writes. */
  ghost predicate FencesOk(ops: seq<Op>, acked: set<SessionId>) {
    forall i :: 0 <= i < |ops| ==> ops[i].ackedBefore <= acked
  }

  ghost predicate ReplyOk(ops: seq<Op>, reg1: R.State, reg2: R.State, e: Event) {
    e.Replied? ==>
      && e.session < |ops|
      && e.client == ops[e.session].client
      && (ResponseOk(ops[e.session], e.session, reg1, e.response) ||
          ResponseOk(ops[e.session], e.session, reg2, e.response))
  }

  ghost predicate RepliesOk(ops: seq<Op>, reg1: R.State, reg2: R.State, h: seq<Event>) {
    forall i :: 0 <= i < |h| ==> ReplyOk(ops, reg1, reg2, h[i])
  }

  /** The answered sessions are distinct and are exactly those that were opened and are no longer in flight. */
  ghost predicate AnsweredOk(total: nat, inFlight: set<SessionId>, answered: seq<SessionId>) {
    && R.Distinct(answered)
    && (forall s: SessionId :: s in answered <==> s < total && s !in inFlight)
    && total == |answered| + |inFlight|
  }

  ghost predicate SessionsOk(ops: seq<Op>, fe: FE.State, reg1: R.State, reg2: R.State, answered: seq<SessionId>) {
    && FrontEndOk(ops, fe)
    && HalfDone(ops, fe.inFlight.Keys, FE.Waiting(fe.onGoing, Register1), reg1)
    && HalfDone(ops, fe.inFlight.Keys, FE.Waiting(fe.onGoing, Register2), reg2)
    && AnsweredOk(|ops|, fe.inFlight.Keys, answered)
  }

  ghost predicate DataOk(ops: seq<Op>, acked: set<SessionId>, reg1: R.State, reg2: R.State,
                         net: multiset<Packet>, h: seq<Event>) {
    && NetOk(ops, reg1, reg2, net)
    && RegisterOk(ops, reg1) && RegisterOk(ops, reg2)
    && Durable(acked, reg1) && Durable(acked, reg2)
    && FencesOk(ops, acked)
    && RepliesOk(ops, reg1, reg2, h)
  }

  ghost predicate Inv(sys: System) {
    var ops := Ops(sys.history);
    && SessionsOk(ops, sys.fe, sys.register1, sys.register2, Answered(sys.history))
    && DataOk(ops, Acked(sys.history), sys.register1, sys.register2, sys.net, sys.history)
  }

  // ---- Growth: operations and registers are append-only ----

  lemma ResponseGrows(op: Op, id: SessionId, reg: R.State, reg': R.State, response: Response)
    requires ResponseOk(op, id, reg, response) && R.Grows(reg, reg')
    ensures ResponseOk(op, id, reg', response)
  {
    if response.Value? {
      assert reg'.sessions[..|response.values|] == reg.sessions[..|response.values|];
    }
  }

  lemma PacketGrows(ops: seq<Op>, ops': seq<Op>, reg1: R.State, reg1': R.State, reg2: R.State, reg2': R.State, p: Packet)
    requires ops <= ops' && R.Grows(reg1, reg1') && R.Grows(reg2, reg2')
    requires PacketOk(ops, reg1, reg2, p)
    ensures PacketOk(ops', reg1', reg2', p)
  {
    if p.args.InternalResponse? {
      if p.from.Register1? {
        ResponseGrows(ops[p.args.id], p.args.id, reg1, reg1', p.args.response);
      } else {
        ResponseGrows(ops[p.args.id], p.args.id, reg2, reg2', p.args.response);
      }
    }
  }

  lemma NetGrows(ops: seq<Op>, ops': seq<Op>, reg1: R.State, reg1': R.State, reg2: R.State, reg2': R.State, net: multiset<Packet>)
    requires ops <= ops' && R.Grows(reg1, reg1') && R.Grows(reg2, reg2')
    requires NetOk(ops, reg1, reg2, net)
    ensures NetOk(ops', reg1', reg2', net)
  {
    forall p | p in net
      ensures PacketOk(ops', reg1', reg2', p)
    {
      PacketGrows(ops, ops', reg1, reg1', reg2, reg2', p);
    }
  }

  lemma RepliesGrow(ops: seq<Op>, ops': seq<Op>, reg1: R.State, reg1': R.State, reg2: R.State, reg2': R.State, h: seq<Event>)
    requires ops <= ops' && R.Grows(reg1, reg1') && R.Grows(reg2, reg2')
    requires RepliesOk(ops, reg1, reg2, h)
    ensures RepliesOk(ops', reg1', reg2', h)
  {
    forall i | 0 <= i < |h| && h[i].Replied?
      ensures ReplyOk(ops', reg1', reg2', h[i])
    {
      var e := h[i];
      assert ReplyOk(ops, reg1, reg2, e);
      if ResponseOk(ops[e.session], e.session, reg1, e.response) {
        ResponseGrows(ops[e.session], e.session, reg1, reg1', e.response);
      } else {
        ResponseGrows(ops[e.session], e.session, reg2, reg2', e.response);
      }
    }
  }

  // ---- A client call ----

  lemma {:induction false} PacketsMembers(from: Address, outs: seq<OutEvent>)
    ensures forall p :: p in Packets(from, outs) <==>
      p.from == from && (p.args.InternalRequest? || p.args.InternalResponse?) && OutEvent(p.to, p.args) in outs
  {
    if outs != [] {
      PacketsMembers(from, outs[..|outs| - 1]);
      assert outs == outs[..|outs| - 1] + [outs[|outs| - 1]];
    }
  }

  lemma CallFrontEnd(ops: seq<Op>, op: Op, fe: FE.State, at: Time)
    requires FrontEndOk(ops, fe)
    ensures FrontEndOk(ops + [op], FE.Open(fe, at, op.client, op.request))
  {
    FE.OpenConsistent(fe, at, op.client, op.request);
    var ops', fe' := ops + [op], FE.Open(fe, at, op.client, op.request);
    forall i | 0 <= i < |fe'.onGoing|
      ensures EntryOk(ops', fe'.onGoing[i])
    {
      assert i < |fe.onGoing| ==> EntryOk(ops, fe.onGoing[i]);
    }
  }

  lemma CallHalfDone(ops: seq<Op>, op: Op, fe: FE.State, at: Time, r: Address, reg: R.State)
    requires |ops| == fe.nextSessionId && IsRegister(r)
    requires HalfDone(ops, fe.inFlight.Keys, FE.Waiting(fe.onGoing, r), reg)
    ensures
      var fe' := FE.Open(fe, at, op.client, op.request);
      HalfDone(ops + [op], fe'.inFlight.Keys, FE.Waiting(fe'.onGoing, r), reg)
  {
    FE.OpenWaiting(fe, at, op.client, op.request, r);
  }

  lemma CallAnswered(fe: FE.State, at: Time, client: ClientId, request: Request, answered: seq<SessionId>)
    requires AnsweredOk(fe.nextSessionId, fe.inFlight.Keys, answered)
    requires fe.nextSessionId !in fe.inFlight
    ensures AnsweredOk(fe.nextSessionId + 1, FE.Open(fe, at, client, request).inFlight.Keys, answered)
  {
    assert FE.Open(fe, at, client, request).inFlight.Keys == fe.inFlight.Keys + {fe.nextSessionId};
  }

  lemma CallSessions(ops: seq<Op>, op: Op, fe: FE.State, at: Time, reg1: R.State, reg2: R.State, answered: seq<SessionId>)
    requires SessionsOk(ops, fe, reg1, reg2, answered)
    ensures SessionsOk(ops + [op], FE.Open(fe, at, op.client, op.request), reg1, reg2, answered)
  {
    CallFrontEnd(ops, op, fe, at);
    CallHalfDone(ops, op, fe, at, Register1, reg1);
    CallHalfDone(ops, op, fe, at, Register2, reg2);
    CallAnswered(fe, at, op.client, op.request, answered);
  }

  lemma CallData(ops: seq<Op>, op: Op, acked: set<SessionId>, reg1: R.State, reg2: R.State,
                 net: multiset<Packet>, h: seq<Event>, e: Event)
    requires DataOk(ops, acked, reg1, reg2, net, h) && op.ackedBefore == acked && e.Invoked?
    ensures DataOk(ops + [op], acked, reg1, reg2, net + Packets(FrontEnd, FE.OpenEvents(|ops|, op.request)), h + [e])
  {
    PacketsMembers(FrontEnd, FE.OpenEvents(|ops|, op.request));
    NetGrows(ops, ops + [op], reg1, reg1, reg2, reg2, net);
    RepliesGrow(ops, ops + [op], reg1, reg1, reg2, reg2, h);
  }

  lemma CallKeeps(sys: System, at: Time, client: ClientId, request: Request)
    requires Inv(sys)
    ensures Inv(Call(sys, at, client, request))
  {
    var h, e := sys.history, Invoked(sys.fe.nextSessionId, client, request);
    var ops, op := Ops(h), Op(client, request, Acked(h));
    Extend(h, e);
    CallSessions(ops, op, sys.fe, at, sys.register1, sys.register2, Answered(h));
    CallData(ops, op, Acked(h), sys.register1, sys.register2, sys.net, h, e);
  }

  // ---- A register serves a request ----

  lemma HandleOk(ops: seq<Op>, reg: R.State, id: SessionId, request: Request)
    requires RegisterOk(ops, reg) && id < |ops| && request == ops[id].request
    ensures RegisterOk(ops, R.Handle(reg, id, request)) && R.Grows(reg, R.Handle(reg, id, request))
  {
    R.HandleKeeps(reg, id, request);
  }

  /** A read sees every write that was acknowledged before it was invoked. */
  lemma AnswerOk(ops: seq<Op>, acked: set<SessionId>, reg: R.State, id: SessionId, request: Request)
    requires RegisterOk(ops, reg) && Durable(acked, reg) && FencesOk(ops, acked)
    requires id < |ops| && request == ops[id].request
    ensures ResponseOk(ops[id], id, R.Handle(reg, id, request), R.Answer(reg, request))
  {
    if request.Read? {
      assert reg.sessions[..|reg.value|] == reg.sessions;
      assert ops[id].ackedBefore <= acked;
    } else {
      assert id !in reg.sessions ==> (reg.sessions + [id])[|reg.sessions|] == id;
    }
  }

  lemma ServeSessions(ops: seq<Op>, fe: FE.State, reg1: R.State, reg1': R.State, reg2: R.State, reg2': R.State,
                      answered: seq<SessionId>)
    requires SessionsOk(ops, fe, reg1, reg2, answered)
    requires R.Grows(reg1, reg1') && R.Grows(reg2, reg2')
    ensures SessionsOk(ops, fe, reg1', reg2', answered)
  {
  }

  lemma ServeData(ops: seq<Op>, acked: set<SessionId>, reg1: R.State, reg1': R.State, reg2: R.State, reg2': R.State,
                  net: multiset<Packet>, h: seq<Event>, p: Packet)
    requires DataOk(ops, acked, reg1, reg2, net, h)
    requires R.Grows(reg1, reg1') && R.Grows(reg2, reg2')
    requires RegisterOk(ops, reg1') && RegisterOk(ops, reg2')
    requires PacketOk(ops, reg1', reg2', p)
    ensures DataOk(ops, acked, reg1', reg2', net + multiset{p}, h)
  {
    NetGrows(ops, ops, reg1, reg1', reg2, reg2', net);
    RepliesGrow(ops, ops, reg1, reg1', reg2, reg2', h);
  }

  lemma ServeKeeps(sys: System, r: Address, id: SessionId, request: Request)
    requires Inv(sys) && IsRegister(r) && id < |Ops(sys.history)| && request == Ops(sys.history)[id].request
    ensures Inv(Serve(sys, r, FrontEnd, id, request))
  {
    var ops, acked, sys' := Ops(sys.history), Acked(sys.history), Serve(sys, r, FrontEnd, id, request);
    var p := Packet(r, FrontEnd, InternalResponse(id, R.Answer(sys.Reg(r), request)));
    HandleOk(ops, sys.Reg(r), id, request);
    AnswerOk(ops, acked, sys.Reg(r), id, request);
    ServeSessions(ops, sys.fe, sys.register1, sys'.register1, sys.register2, sys'.register2, Answered(sys.history));
    ServeData(ops, acked, sys.register1, sys'.register1, sys.register2, sys'.register2, sys.net, sys.history, p);
  }

  // ---- The frontend collects a response ----

  lemma CollectFrontEnd(ops: seq<Op>, fe: FE.State, from: Address, id: SessionId)
    requires FrontEndOk(ops, fe)
    ensures FrontEndOk(ops, FE.Settle(fe, from, id))
  {
    FE.SettleConsistent(fe, from, id);
    FE.WithoutMembers(fe.onGoing, from, id);
    var es, es' := fe.onGoing, FE.Settle(fe, from, id).onGoing;
    forall i | 0 <= i < |es'|
      ensures EntryOk(ops, es'[i])
    {
      assert es'[i] in es;
    }
  }

  lemma CollectHalfDone(ops: seq<Op>, fe: FE.State, from: Address, id: SessionId, response: Response, regFrom: R.State,
                        r: Address, reg: R.State)
    requires FE.Consistent(fe) && IsRegister(r) && (r == from ==> reg == regFrom)
    requires id < |ops| && ResponseOk(ops[id], id, regFrom, response)
    requires HalfDone(ops, fe.inFlight.Keys, FE.Waiting(fe.onGoing, r), reg)
    ensures
      var fe' := FE.Settle(fe, from, id);
      HalfDone(ops, fe'.inFlight.Keys, FE.Waiting(fe'.onGoing, r), reg)
  {
    FE.SettleWaiting(fe, from, id);
  }

  lemma CollectAnswered(total: nat, inFlight: set<SessionId>, id: SessionId, answered: seq<SessionId>)
    requires AnsweredOk(total, inFlight, answered) && id in inFlight && id < total
    ensures AnsweredOk(total, inFlight - {id}, answered + [id])
  {
    var answered' := answered + [id];
    assert forall s :: s in answered' <==> s in answered || s == id;
  }

  lemma CollectSessions(ops: seq<Op>, fe: FE.State, reg1: R.State, reg2: R.State, answered: seq<SessionId>,
                        from: Address, id: SessionId, response: Response)
    requires SessionsOk(ops, fe, reg1, reg2, answered)
    requires IsRegister(from) && id < |ops|
    requires ResponseOk(ops[id], id, if from.Register1? then reg1 else reg2, response)
    ensures SessionsOk(ops, FE.Settle(fe, from, id), reg1, reg2,
                       if FE.Completes(fe, from, id) then answered + [id] else answered)
  {
    var regFrom := if from.Register1? then reg1 else reg2;
    CollectFrontEnd(ops, fe, from, id);
    CollectHalfDone(ops, fe, from, id, response, regFrom, Register1, reg1);
    CollectHalfDone(ops, fe, from, id, response, regFrom, Register2, reg2);
    FE.SettleWaiting(fe, from, id);
    if FE.Completes(fe, from, id) {
      CollectAnswered(|ops|, fe.inFlight.Keys, id, answered);
    }
  }

  /** When the last awaited register acknowledges a write, both registers hold it. */
  lemma AckedByBoth(ops: seq<Op>, fe: FE.State, reg1: R.State, reg2: R.State, answered: seq<SessionId>,
                    from: Address, id: SessionId)
    requires SessionsOk(ops, fe, reg1, reg2, answered)
    requires IsRegister(from) && id < |ops| && FE.Completes(fe, from, id)
    requires ResponseOk(ops[id], id, if from.Register1? then reg1 else reg2, Ack)
    ensures id in reg1.sessions && id in reg2.sessions
  {
    FE.CompletesIff(fe, from, id);
  }

  lemma CollectData(ops: seq<Op>, acked: set<SessionId>, reg1: R.State, reg2: R.State, net: multiset<Packet>,
                    h: seq<Event>, e: Event)
    requires DataOk(ops, acked, reg1, reg2, net, h) && e.Replied?
    requires ReplyOk(ops, reg1, reg2, e)
    requires e.response.Ack? ==> e.session in reg1.sessions && e.session in reg2.sessions
    ensures DataOk(ops, acked + if e.response.Ack? then {e.session} else {}, reg1, reg2, net, h + [e])
  {
  }

  lemma CollectKeeps(sys: System, from: Address, id: SessionId, response: Response)
    requires Inv(sys) && IsRegister(from) && id < |Ops(sys.history)|
    requires ResponseOk(Ops(sys.history)[id], id, sys.Reg(from), response)
    ensures Inv(Collect(sys, from, id, response))
  {
    var h, ops := sys.history, Ops(sys.history);
    CollectSessions(ops, sys.fe, sys.register1, sys.register2, Answered(h), from, id, response);
    if FE.Completes(sys.fe, from, id) {
      CollectReply(sys, from, id, response);
    }
  }

  lemma CollectReply(sys: System, from: Address, id: SessionId, response: Response)
    requires Inv(sys) && IsRegister(from) && id < |Ops(sys.history)| && FE.Completes(sys.fe, from, id)
    requires ResponseOk(Ops(sys.history)[id], id, sys.Reg(from), response)
    ensures
      var sys' := Collect(sys, from, id, response);
      && sys'.history == sys.history + [Replied(id, sys.fe.inFlight[id], response)]
      && Ops(sys'.history) == Ops(sys.history)
      && Answered(sys'.history) == Answered(sys.history) + [id]
      && DataOk(Ops(sys.history), Acked(sys'.history), sys.register1, sys.register2, sys.net, sys'.history)
  {
    var h, ops, e := sys.history, Ops(sys.history), Replied(id, sys.fe.inFlight[id], response);
    Extend(h, e);
    if response.Ack? {
      AckedByBoth(ops, sys.fe, sys.register1, sys.register2, Answered(h), from, id);
    }
    CollectData(ops, Acked(h), sys.register1, sys.register2, sys.net, h, e);
  }

  // ---- The timer fires ----

  lemma FireFrontEnd(ops: seq<Op>, fe: FE.State, now: Time)
    requires FrontEndOk(ops, fe)
    ensures FrontEndOk(ops, FE.Elapse(fe, now))
  {
    FE.ElapseConsistent(fe, now);
    var es' := FE.Elapse(fe, now).onGoing;
    forall i | 0 <= i < |es'|
      ensures EntryOk(ops, es'[i])
    {
      assert EntryOk(ops, fe.onGoing[i]);
    }
  }

  lemma FireSessions(ops: seq<Op>, fe: FE.State, reg1: R.State, reg2: R.State, answered: seq<SessionId>, now: Time)
    requires SessionsOk(ops, fe, reg1, reg2, answered)
    ensures SessionsOk(ops, FE.Elapse(fe, now), reg1, reg2, answered)
  {
    FireFrontEnd(ops, fe, now);
    FE.ResendWaiting(fe.onGoing, now, Register1);
    FE.ResendWaiting(fe.onGoing, now, Register2);
  }

  lemma FireNet(ops: seq<Op>, fe: FE.State, reg1: R.State, reg2: R.State, net: multiset<Packet>, now: Time)
    requires NetOk(ops, reg1, reg2, net) && FrontEndOk(ops, fe)
    ensures NetOk(ops, reg1, reg2, net + Packets(FrontEnd, FrontEnd4Reactor.TimerEvents(fe, now)))
  {
    var outs := FrontEnd4Reactor.TimerEvents(fe, now);
    PacketsMembers(FrontEnd, outs);
    FE.ResendEventsMembers(fe.onGoing, now);
    forall p | p in Packets(FrontEnd, outs)
      ensures PacketOk(ops, reg1, reg2, p)
    {
      var e :| e in fe.onGoing && OutEvent(p.to, p.args) == ToRegister(e);
      var i :| 0 <= i < |fe.onGoing| && fe.onGoing[i] == e;
      assert EntryOk(ops, fe.onGoing[i]);
    }
  }

  lemma FireKeeps(sys: System, now: Time)
    requires Inv(sys)
    ensures Inv(Fire(sys, now))
  {
    FireSessions(Ops(sys.history), sys.fe, sys.register1, sys.register2, Answered(sys.history), now);
    FireNet(Ops(sys.history), sys.fe, sys.register1, sys.register2, sys.net, now);
  }

  // ---- Runs ----

  lemma StepKeeps(sys: System, step: Step)
    requires Inv(sys)
    ensures Inv(Apply(sys, step))
  {
    match step
    case CallClient(at, client, request) => CallKeeps(sys, at, client, request);
    case FireTimer(now) => FireKeeps(sys, now);
    case Drop(p) =>
    case Duplicate(p) =>
    case Deliver(p) =>
      if p in sys.net {
        var rest := sys.(net := sys.net - multiset{p});
        assert PacketOk(Ops(sys.history), sys.register1, sys.register2, p);
        if p.args.InternalRequest? {
          ServeKeeps(rest, p.to, p.args.id, p.args.request);
        } else {
          CollectKeeps(rest, p.from, p.args.id, p.args.response);
        }
      }
  }

  lemma StartOk()
    ensures Inv(Start)
  {
    assert FE.Waiting(FE.Initial.onGoing, Register1) == {} == FE.Waiting(FE.Initial.onGoing, Register2);
    assert Start.history == [] && Ops([]) == [] && Answered([]) == [] && Acked([]) == {};
    assert AnsweredOk(0, {}, []);
  }

  /** The invariant holds in every reachable state, whatever is lost, duplicated or reordered. */
  lemma {:induction false} RunKeeps(steps: seq<Step>)
    ensures Inv(Run(Start, steps))
  {
    if steps == [] {
      StartOk();
    } else {
      RunKeeps(steps[..|steps| - 1]);
      StepKeeps(Run(Start, steps[..|steps| - 1]), steps[|steps| - 1]);
    }
  }
}
