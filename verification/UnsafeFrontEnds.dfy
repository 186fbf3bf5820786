/** FrontEnd1 and FrontEnd2 with two registers over a lossy network: one register can answer on its own. */
module UnsafeFrontEnds {
  import opened RegisterMessages
  import opened RegisterProtocol
  import opened RegisterGuarantees
  import opened Linearizability
  import FE = FrontEndState
  import F1 = FrontEnd1Reactor
  import F2 = FrontEnd2Reactor
  import R = RegisterReactor
  import Runs = FrontEndRuns
  import RegisterProgress

  // ---- The system ----

  datatype Node = One(run: F1.Run) | Two(fe: F2.State)

  datatype Deployment = Deployment(
    node: Node,
    register1: R.State,
    register2: R.State,
    net: multiset<Packet>,
    history: seq<Event>)
  {
    function Reg(r: Address): R.State
      requires IsRegister(r)
    {
      if r.Register1? then register1 else register2
    }

    function SetReg(r: Address, s: R.State): Deployment
      requires IsRegister(r)
    {
      if r.Register1? then this.(register1 := s) else this.(register2 := s)
    }
  }

  const FRONTEND1 := One(F1.Running(F1.Initial))
  const FRONTEND2 := Two(F2.Initial)

  function Deploy(node: Node): Deployment {
    Deployment(node, R.Initial, R.Initial, multiset{}, [])
  }

  /** The frontend takes the client's call; FrontEnd1 exits if the client has a session in flight. */
  predicate Ready(node: Node, client: ClientId) {
    match node
    case One(Running(fe)) => client !in fe.inFlight
    case One(Exited) => false
    case Two(_) => true
  }

  function NextSession(node: Node): nat {
    match node
    case One(Running(fe)) => fe.nextSessionId
    case One(Exited) => 0
    case Two(fe) => fe.nextSessionId
  }

  function NodeStep(node: Node, input: Runs.Input): Node {
    match node
    case One(run) => One(F1.Step(run, input))
    case Two(fe) => Two(F2.Step(fe, input))
  }

  function Replies(node: Node, id: SessionId, response: Response): seq<OutEvent> {
    match node
    case One(Running(fe)) => F1.ResponseEvents(fe, id, response)
    case One(Exited) => []
    case Two(fe) => F2.ResponseEvents(fe, id, response)
  }

  /** Only FrontEnd2 retries. */
  function Retries(node: Node, now: Time): seq<OutEvent> {
    match node
    case One(_) => []
    case Two(fe) => FE.ResendEvents(fe.onGoing, now)
  }

  function CallNode(sys: Deployment, at: Time, client: ClientId, request: Request): Deployment {
    var n, called := NextSession(sys.node), sys.(node := NodeStep(sys.node, Runs.Call(at, client, request)));
    if Ready(sys.node, client)
    then called.(net := sys.net + Packets(FrontEnd, FE.OpenEvents(n, request)),
                 history := sys.history + [Invoked(n, client, request)])
    else called
  }

  function ServeAt(sys: Deployment, r: Address, client: Address, id: SessionId, request: Request): Deployment
    requires IsRegister(r)
  {
    sys.SetReg(r, R.Handle(sys.Reg(r), id, request))
       .(net := sys.net + multiset{Packet(r, client, InternalResponse(id, R.Answer(sys.Reg(r), request)))})
  }

  function CollectAt(sys: Deployment, from: Address, id: SessionId, response: Response): Deployment {
    var outs := Replies(sys.node, id, response);
    sys.(node := NodeStep(sys.node, Runs.Reply(from, id, response)),
         history := if outs == [] then sys.history
                    else sys.history + [Replied(id, outs[0].args.clientId, outs[0].args.reply)])
  }

  /** This network loses and reorders packets but does not duplicate them. */
  function Next(sys: Deployment, step: Step): Deployment {
    match step
    case CallClient(at, client, request) => CallNode(sys, at, client, request)
    case FireTimer(now) =>
      sys.(node := NodeStep(sys.node, Runs.Clock(now)), net := sys.net + Packets(FrontEnd, Retries(sys.node, now)))
    case Drop(p) => sys.(net := sys.net - multiset{p})
    case Duplicate(p) => sys
    case Deliver(p) =>
      if p !in sys.net then sys else
        var rest := sys.(net := sys.net - multiset{p});
        if IsRegister(p.to) && p.args.InternalRequest? then ServeAt(rest, p.to, p.from, p.args.id, p.args.request)
        else if p.to.FrontEnd? && p.args.InternalResponse? then CollectAt(rest, p.from, p.args.id, p.args.response)
        else rest
  }

  function RunAll(sys: Deployment, steps: seq<Step>): Deployment {
    if steps == [] then sys else Next(RunAll(sys, steps[..|steps| - 1]), steps[|steps| - 1])
  }

  lemma RunSnoc(sys: Deployment, steps: seq<Step>, step: Step)
    ensures RunAll(sys, steps + [step]) == Next(RunAll(sys, steps), step)
  {
    assert (steps + [step])[..|steps|] == steps;
  }

  lemma {:induction false} RunAppend(sys: Deployment, first: seq<Step>, second: seq<Step>)
    ensures RunAll(sys, first + second) == RunAll(RunAll(sys, first), second)
  {
    if second == [] {
      assert first + second == first;
    } else {
      RunAppend(sys, first, second[..|second| - 1]);
      RegisterProgress.FrontOfAppend(first, second);
    }
  }

  // ---- Sessions are the calls of the history ----

  ghost predicate Numbered(sys: Deployment) {
    sys.node != One(F1.Exited) ==> |Ops(sys.history)| == NextSession(sys.node)
  }

  lemma CollectNumbered(sys: Deployment, from: Address, id: SessionId, response: Response)
    requires Numbered(sys)
    ensures Numbered(CollectAt(sys, from, id, response))
  {
    var outs := Replies(sys.node, id, response);
    if outs != [] {
      Extend(sys.history, Replied(id, outs[0].args.clientId, outs[0].args.reply));
    }
  }

  lemma CallNumbered(sys: Deployment, at: Time, client: ClientId, request: Request)
    requires Numbered(sys)
    ensures Numbered(CallNode(sys, at, client, request))
  {
    Extend(sys.history, Invoked(NextSession(sys.node), client, request));
  }

  lemma NextNumbered(sys: Deployment, step: Step)
    requires Numbered(sys)
    ensures Numbered(Next(sys, step))
  {
    match step
    case CallClient(at, client, request) => CallNumbered(sys, at, client, request);
    case Deliver(p) =>
      if p in sys.net && p.to.FrontEnd? && p.args.InternalResponse? {
        CollectNumbered(sys.(net := sys.net - multiset{p}), p.from, p.args.id, p.args.response);
      }
    case _ =>
  }

  lemma {:induction false} RunNumbered(start: Node, steps: seq<Step>)
    requires start == FRONTEND1 || start == FRONTEND2
    ensures Numbered(RunAll(Deploy(start), steps))
  {
    if steps == [] {
      assert Ops([]) == [];
    } else {
      RunNumbered(start, steps[..|steps| - 1]);
      NextNumbered(RunAll(Deploy(start), steps[..|steps| - 1]), steps[|steps| - 1]);
    }
  }

  // ---- One register answers ----

  function RequestTo(r: Address, n: SessionId, request: Request): Packet {
    Packet(FrontEnd, r, InternalRequest(n, request))
  }

  function ResponseOf(r: Address, n: SessionId, response: Response): Packet {
    Packet(r, FrontEnd, InternalResponse(n, response))
  }

  lemma CallSends(sys: Deployment, at: Time, client: ClientId, request: Request, r: Address)
    requires IsRegister(r) && Ready(sys.node, client)
    ensures RequestTo(r, NextSession(sys.node), request) in CallNode(sys, at, client, request).net
  {
    var outs := FE.OpenEvents(NextSession(sys.node), request);
    PacketsMembers(FrontEnd, outs);
    assert OutEvent(r, InternalRequest(NextSession(sys.node), request)) == outs[if r.Register1? then 0 else 1];
  }

  lemma ServeOne(sys: Deployment, r: Address, n: SessionId, request: Request)
    requires IsRegister(r) && RequestTo(r, n, request) in sys.net
    ensures
      var sys' := Next(sys, Deliver(RequestTo(r, n, request)));
      var response := ResponseOf(r, n, R.Answer(sys.Reg(r), request));
      && sys'.node == sys.node && sys'.history == sys.history
      && sys'.Reg(r) == R.Handle(sys.Reg(r), n, request) && sys'.Reg(Other(r)) == sys.Reg(Other(r))
      && sys'.net[response] == sys.net[response] + 1
  {
  }

  lemma CollectOne(sys: Deployment, r: Address, n: SessionId, response: Response)
    requires IsRegister(r) && ResponseOf(r, n, response) in sys.net
    ensures
      var sys' := Next(sys, Deliver(ResponseOf(r, n, response)));
      && sys' == CollectAt(sys.(net := sys'.net), r, n, response)
      && sys'.net[ResponseOf(r, n, response)] == sys.net[ResponseOf(r, n, response)] - 1
  {
  }

  /** What the system looks like when register `r` has answered the call on its own. */
  ghost predicate AnsweredBy(sys: Deployment, sys': Deployment, client: ClientId, request: Request, r: Address)
    requires IsRegister(r)
  {
    var n := NextSession(sys.node);
    && sys'.history == sys.history + [Invoked(n, client, request)] + [Replied(n, client, R.Answer(sys.Reg(r), request))]
    && sys'.Reg(Other(r)) == sys.Reg(Other(r))
    && NextSession(sys'.node) == n + 1
    && forall c :: Ready(sys.node, c) ==> Ready(sys'.node, c)
  }

  lemma RunCallServe(sys: Deployment, call: Step, serve: Step)
    ensures RunAll(sys, [] + [call] + [serve]) == Next(Next(sys, call), serve)
  {
    RunSnoc(sys, [], call);
    RunSnoc(sys, [] + [call], serve);
  }

  /** A call that register `r` has served. */
  lemma Served(sys: Deployment, at: Time, client: ClientId, request: Request, r: Address) returns (steps: seq<Step>)
    requires Ready(sys.node, client) && IsRegister(r)
    ensures
      var n, sys' := NextSession(sys.node), RunAll(sys, steps);
      && sys'.node == NodeStep(sys.node, Runs.Call(at, client, request))
      && sys'.history == sys.history + [Invoked(n, client, request)]
      && sys'.Reg(r) == R.Handle(sys.Reg(r), n, request) && sys'.Reg(Other(r)) == sys.Reg(Other(r))
      && sys'.net[ResponseOf(r, n, R.Answer(sys.Reg(r), request))] >= 1
  {
    var n := NextSession(sys.node);
    var call, serve := CallClient(at, client, request), Deliver(RequestTo(r, n, request));
    CallSends(sys, at, client, request, r);
    ServeOne(CallNode(sys, at, client, request), r, n, request);
    RunCallServe(sys, call, serve);
    steps := [] + [call] + [serve];
  }

  lemma OneCollects(sys: Deployment, at: Time, client: ClientId, request: Request)
    requires sys.node.One? && Ready(sys.node, client)
    ensures
      var n := NextSession(sys.node);
      var called := NodeStep(sys.node, Runs.Call(at, client, request));
      && (forall response :: Replies(called, n, response) == [ToClient(client, response)])
      && forall from, response ::
           var done := NodeStep(called, Runs.Reply(from, n, response));
           NextSession(done) == n + 1 && forall c :: Ready(sys.node, c) ==> Ready(done, c)
  {
  }

  /** FrontEnd1 forwards the first response. */
  lemma OneAnswers(sys: Deployment, at: Time, client: ClientId, request: Request, r: Address) returns (steps: seq<Step>)
    requires sys.node.One? && Ready(sys.node, client) && IsRegister(r)
    ensures AnsweredBy(sys, RunAll(sys, steps), client, request, r)
  {
    var n, answer := NextSession(sys.node), R.Answer(sys.Reg(r), request);
    var served := Served(sys, at, client, request, r);
    OneCollects(sys, at, client, request);
    CollectOne(RunAll(sys, served), r, n, answer);
    RunSnoc(sys, served, Deliver(ResponseOf(r, n, answer)));
    steps := served + [Deliver(ResponseOf(r, n, answer))];
  }

  lemma RetrySends(es: seq<OnGoing>, e: OnGoing, now: Time)
    requires e in es && Overdue(e, now)
    ensures RequestTo(e.register, e.sessionId, e.request) in Packets(FrontEnd, FE.ResendEvents(es, now))
  {
    FE.ResendEventsMembers(es, now);
    assert ToRegister(e) in FE.ResendEvents(es, now);
    PacketsMembers(FrontEnd, FE.ResendEvents(es, now));
  }

  /** What FrontEnd2 keeps of a call that no response has arrived for. */
  ghost predicate Awaits(fe: F2.State, n: SessionId, client: ClientId) {
    n in fe.inFlight && fe.inFlight[n] == client && !F2.Repeated(fe, n) && fe.nextSessionId == n + 1
  }

  lemma OpenAwaits(fe: F2.State, at: Time, client: ClientId, request: Request, r: Address)
    requires IsRegister(r)
    ensures Awaits(F2.Open(fe, at, client, request), fe.nextSessionId, client)
    ensures FE.Entry(r, request, fe.nextSessionId, at) in F2.Open(fe, at, client, request).onGoing
  {
    assert FE.Entry(r, request, fe.nextSessionId, at)
      == F2.Open(fe, at, client, request).onGoing[|fe.onGoing| + if r.Register1? then 0 else 1];
  }

  /** The same register serves the retry of a request and answers as before. */
  lemma ServeRetry(sys: Deployment, now: Time, e: OnGoing, answer: Response)
    requires sys.node.Two? && e in sys.node.fe.onGoing && Overdue(e, now) && IsRegister(e.register)
    requires answer == R.Answer(sys.Reg(e.register), e.request)
    ensures
      var sys' := Next(Next(sys, FireTimer(now)), Deliver(RequestTo(e.register, e.sessionId, e.request)));
      && sys'.node == Two(F2.Step(sys.node.fe, Runs.Clock(now))) && sys'.history == sys.history
      && sys'.Reg(Other(e.register)) == sys.Reg(Other(e.register))
      && sys'.net[ResponseOf(e.register, e.sessionId, answer)] > sys.net[ResponseOf(e.register, e.sessionId, answer)]
  {
    RetrySends(sys.node.fe.onGoing, e, now);
    ServeOne(Next(sys, FireTimer(now)), e.register, e.sessionId, e.request);
  }

  lemma SameAnswer(reg: R.State, n: SessionId, request: Request)
    ensures R.Answer(R.Handle(reg, n, request), request) == R.Answer(reg, request)
  {
  }

  /** FrontEnd2 after the call has been served, retried and served again. */
  lemma TwoServes(sys: Deployment, at: Time, client: ClientId, request: Request, r: Address) returns (steps: seq<Step>)
    requires sys.node.Two? && IsRegister(r)
    ensures
      var n, sys' := NextSession(sys.node), RunAll(sys, steps);
      && sys'.node.Two? && Awaits(sys'.node.fe, n, client)
      && sys'.history == sys.history + [Invoked(n, client, request)]
      && sys'.Reg(Other(r)) == sys.Reg(Other(r))
      && sys'.net[ResponseOf(r, n, R.Answer(sys.Reg(r), request))] >= 2
  {
    var n, now := NextSession(sys.node), at + RESEND_TIMER + 1;
    var served := Served(sys, at, client, request, r);
    OpenAwaits(sys.node.fe, at, client, request, r);
    SameAnswer(sys.Reg(r), n, request);
    ServeRetry(RunAll(sys, served), now, FE.Entry(r, request, n, at), R.Answer(sys.Reg(r), request));
    RunSnoc(sys, served, FireTimer(now));
    RunSnoc(sys, served + [FireTimer(now)], Deliver(RequestTo(r, n, request)));
    steps := served + [FireTimer(now)] + [Deliver(RequestTo(r, n, request))];
  }

  /** FrontEnd2 answers after two responses, both of them from `r`. */
  lemma TwoAnswers(sys: Deployment, at: Time, client: ClientId, request: Request, r: Address) returns (steps: seq<Step>)
    requires sys.node.Two? && IsRegister(r)
    ensures AnsweredBy(sys, RunAll(sys, steps), client, request, r)
  {
    var n, answer := NextSession(sys.node), R.Answer(sys.Reg(r), request);
    var collect := Deliver(ResponseOf(r, n, answer));
    var twice := TwoServes(sys, at, client, request, r);
    CollectOne(RunAll(sys, twice), r, n, answer);
    CollectOne(Next(RunAll(sys, twice), collect), r, n, answer);
    RunSnoc(sys, twice, collect);
    RunSnoc(sys, twice + [collect], collect);
    steps := twice + [collect] + [collect];
  }

  /** From any state, any call that the frontend takes can be answered by one register alone. */
  lemma OneRegisterAnswers(sys: Deployment, at: Time, client: ClientId, request: Request, r: Address)
    returns (steps: seq<Step>)
    requires Ready(sys.node, client) && IsRegister(r)
    ensures AnsweredBy(sys, RunAll(sys, steps), client, request, r)
  {
    if sys.node.One? {
      steps := OneAnswers(sys, at, client, request, r);
    } else {
      steps := TwoAnswers(sys, at, client, request, r);
    }
  }

  // ---- An acknowledged write is missing from a later read ----

  lemma {:induction false} WrittenHas(ops: seq<Op>, order: seq<SessionId>, p: nat, q: nat, x: int)
    requires p < q <= |order| && order[p] < |ops| && ops[order[p]].request == Write(x)
    ensures x in Written(ops, order[..q])
  {
    assert order[..q][..q - 1] == order[..q - 1];
    if p < q - 1 {
      WrittenHas(ops, order, p, q - 1, x);
    }
  }

  /** In any linearizable history a read returns every write that was acknowledged before it was invoked. */
  lemma AckedWriteIsRead(h: seq<Event>, order: seq<SessionId>, i: nat, j: nat, k: nat, x: int)
    requires Linearizes(h, order) && ReadAfterAck(h, i, j, k) && h[k].response.Value?
    requires h[i].session < |Ops(h)| && Ops(h)[h[i].session].request == Write(x)
    ensures x in h[k].response.values
  {
    AnsweredIffReplied(h, h[i].session);
    AnsweredIffReplied(h, h[k].session);
    var p: nat :| p < |order| && order[p] == h[i].session;
    var q: nat :| q < |order| && order[q] == h[k].session;
    assert h[k].response == Expected(Ops(h), order, q);
    WrittenHas(Ops(h), order, p, q, x);
  }

  function WriteThenRead(h: seq<Event>, n: SessionId, writer: ClientId, x: int, reader: ClientId, values: seq<int>)
    : seq<Event>
  {
    h + [Invoked(n, writer, Write(x))] + [Replied(n, writer, Ack)]
      + [Invoked(n + 1, reader, Read)] + [Replied(n + 1, reader, Value(values))]
  }

  lemma OpOfWrite(h: seq<Event>, n: SessionId, writer: ClientId, x: int, reader: ClientId, values: seq<int>)
    requires |Ops(h)| == n
    ensures n < |Ops(WriteThenRead(h, n, writer, x, reader, values))|
    ensures Ops(WriteThenRead(h, n, writer, x, reader, values))[n].request == Write(x)
  {
    var h1 := h + [Invoked(n, writer, Write(x))];
    var h2 := h1 + [Replied(n, writer, Ack)];
    var h3 := h2 + [Invoked(n + 1, reader, Read)];
    Extend(h, Invoked(n, writer, Write(x)));
    Extend(h1, Replied(n, writer, Ack));
    Extend(h2, Invoked(n + 1, reader, Read));
    Extend(h3, Replied(n + 1, reader, Value(values)));
  }

  lemma MissedWriteIsNotLinearizable(h: seq<Event>, n: SessionId, writer: ClientId, x: int,
                                     reader: ClientId, values: seq<int>)
    requires |Ops(h)| == n && x !in values
    ensures !Linearizable(WriteThenRead(h, n, writer, x, reader, values))
  {
    var h' := WriteThenRead(h, n, writer, x, reader, values);
    OpOfWrite(h, n, writer, x, reader, values);
    assert h'[|h| + 1] == Replied(n, writer, Ack) && h'[|h| + 2] == Invoked(n + 1, reader, Read)
      && h'[|h| + 3] == Replied(n + 1, reader, Value(values));
    if order :| Linearizes(h', order) {
      AckedWriteIsRead(h', order, |h| + 1, |h| + 2, |h| + 3, x);
    }
  }

  /**
   * After any past of either frontend, two clients that it would take can see this: one register alone acknowledges
   * a write, the other one alone answers a later read, the write is missing and the history is not linearizable.
   */
  lemma StaleRead(start: Node, past: seq<Step>, sys: Deployment, first: Address,
                  at: Time, writer: ClientId, x: int, reader: ClientId) returns (more: seq<Step>)
    requires (start == FRONTEND1 || start == FRONTEND2) && sys == RunAll(Deploy(start), past)
    requires IsRegister(first) && Ready(sys.node, writer) && Ready(sys.node, reader)
    requires x !in sys.Reg(Other(first)).value
    ensures RunAll(sys, more).history
         == WriteThenRead(sys.history, NextSession(sys.node), writer, x, reader, sys.Reg(Other(first)).value)
    ensures !Linearizable(RunAll(sys, more).history)
  {
    RunNumbered(start, past);
    var write := OneRegisterAnswers(sys, at, writer, Write(x), first);
    var read := OneRegisterAnswers(RunAll(sys, write), at, reader, Read, Other(first));
    more := write + read;
    RunAppend(sys, write, read);
    MissedWriteIsNotLinearizable(sys.history, NextSession(sys.node), writer, x, reader, sys.Reg(Other(first)).value);
  }
}
