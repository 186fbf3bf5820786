/** Everything that FrontEnd1 and FrontEnd2 send, said in terms of what they have received and sent before. */
module EarlyFrontEndOutputs {
  import opened RegisterMessages
  import opened FrontEndRuns
  import opened FrontEndOutputs
  import FE = FrontEndState
  import F1 = FrontEnd1Reactor
  import F2 = FrontEnd2Reactor

  // ---- FrontEnd1 ----

  /** What FrontEnd1 sends; a call of a busy client ends the process. */
  function Outputs1(run: F1.Run, input: Input): seq<OutEvent> {
    match run
    case Exited => []
    case Running(fe) =>
      match input
      case Call(_, client, request) => if client in fe.inFlight then [] else FE.OpenEvents(fe.nextSessionId, request)
      case Reply(_, id, response) => F1.ResponseEvents(fe, id, response)
      case Clock(_) => []
  }

  function Sent1(inputs: seq<Input>): (sent: seq<seq<OutEvent>>)
    ensures |sent| == |inputs|
  {
    if inputs == [] then [] else
      var front := inputs[..|inputs| - 1];
      Sent1(front) + [Outputs1(F1.RunAll(front), inputs[|inputs| - 1])]
  }

  function Status(exited: bool, fe: F1.State): F1.Run {
    if exited then F1.Exited else F1.Running(fe)
  }

  method Drive1(fe: F1.FrontEnd1, exitedBefore: bool, input: Input) returns (exited: bool, outs: seq<OutEvent>)
    modifies fe
    ensures Status(exited, fe.Model()) == F1.Step(Status(exitedBefore, old(fe.Model())), input)
    ensures outs == Outputs1(Status(exitedBefore, old(fe.Model())), input)
  {
    exited, outs := exitedBefore, [];
    if !exited {
      match input {
        case Call(at, client, request) =>
          if client in fe.inFlight {
            exited := true;
          } else {
            outs := fe.ReceiveClient(at, client, request);
          }
        case Reply(from, id, response) => outs := fe.ReceiveResponse(from, id, response);
        case Clock(_) =>
      }
    }
  }

  /** Drives the reactor itself, until it exits. */
  method RunFrontEnd1(inputs: seq<Input>) returns (fe: F1.FrontEnd1, exited: bool, sent: seq<seq<OutEvent>>)
    ensures Status(exited, fe.Model()) == F1.RunAll(inputs)
    ensures sent == Sent1(inputs)
  {
    fe := new F1.FrontEnd1();
    exited, sent := false, [];
    for i := 0 to |inputs|
      invariant fresh(fe)
      invariant Status(exited, fe.Model()) == F1.RunAll(inputs[..i])
      invariant sent == Sent1(inputs[..i])
    {
      assert inputs[..i + 1][..i] == inputs[..i];
      var outs;
      exited, outs := Drive1(fe, exited, inputs[i]);
      sent := sent + [outs];
    }
    assert inputs[..|inputs|] == inputs;
  }

  /** Some session of the client has had no response yet. */
  ghost predicate Busy(past: seq<Input>, client: ClientId) {
    exists s: SessionId :: s < Calls(past) && Responses(past, s) == 0 && Opener(past, s).client == client
  }

  ghost predicate Clients1Ok(fe: F1.State, inputs: seq<Input>) {
    forall s :: s in fe.sessionToClient ==> s < Calls(inputs) && fe.sessionToClient[s] == Opener(inputs, s).client
  }

  lemma {:induction false} Clients1(inputs: seq<Input>)
    requires F1.RunAll(inputs).Running?
    ensures Clients1Ok(F1.RunAll(inputs).fe, inputs)
  {
    if inputs != [] {
      var front, last := inputs[..|inputs| - 1], inputs[|inputs| - 1];
      Clients1(front);
      F1.SessionStatus(front, 0);
      OpenerSnoc(front, last);
      assert inputs == front + [last];
    }
  }

  /** The table of clients keeps the session of each busy client and the time of its call. */
  lemma {:induction false} TableKeepsCalls(inputs: seq<Input>, client: ClientId)
    requires F1.RunAll(inputs).Running? && client in F1.RunAll(inputs).fe.inFlight
    ensures
      var context := F1.RunAll(inputs).fe.inFlight[client];
      && context.id < Calls(inputs) && Responses(inputs, context.id) == 0
      && Opener(inputs, context.id).client == client && Opener(inputs, context.id).at == context.at
  {
    var front, last := inputs[..|inputs| - 1], inputs[|inputs| - 1];
    F1.TablesAreInverse(inputs);
    Clients1(inputs);
    F1.SessionStatus(inputs, F1.RunAll(inputs).fe.inFlight[client].id);
    F1.SessionStatus(front, 0);
    OpenerSnoc(front, last);
    assert inputs == front + [last];
    if client in F1.RunAll(front).fe.inFlight {
      TableKeepsCalls(front, client);
    }
  }

  lemma BusyIffInFlight(past: seq<Input>, client: ClientId)
    requires F1.RunAll(past).Running?
    ensures client in F1.RunAll(past).fe.inFlight <==> Busy(past, client)
  {
    var fe := F1.RunAll(past).fe;
    F1.TablesAreInverse(past);
    Clients1(past);
    if client in fe.inFlight {
      F1.SessionStatus(past, fe.inFlight[client].id);
      assert Opener(past, fe.inFlight[client].id).client == client;
    }
    if s: SessionId :| s < Calls(past) && Responses(past, s) == 0 && Opener(past, s).client == client {
      F1.SessionStatus(past, s);
    }
  }

  /** FrontEnd1 exits exactly at a call of a client with an open session. */
  lemma ExitsIffBusy(past: seq<Input>, call: Input)
    requires F1.RunAll(past).Running? && call.Call?
    ensures F1.RunAll(past + [call]).Exited? <==> Busy(past, call.client)
  {
    BusyIffInFlight(past, call.client);
    assert (past + [call])[..|past|] == past;
  }

  lemma {:induction false} SentAt1(inputs: seq<Input>, i: nat)
    requires i < |inputs|
    ensures Sent1(inputs)[i] == Outputs1(F1.RunAll(inputs[..i]), inputs[i])
  {
    var front := inputs[..|inputs| - 1];
    if i < |front| {
      SentAt1(front, i);
      assert front[..i] == inputs[..i] && front[i] == inputs[i];
    }
  }

  /**
   * Until it exits, FrontEnd1 forwards each call to both registers, the first response of each session to the
   * client whose call opened it, and nothing else.
   */
  lemma FirstResponseIsForwarded(inputs: seq<Input>, i: nat)
    requires i < |inputs| && F1.RunAll(inputs[..i]).Running?
    ensures inputs[i].Call? && !Busy(inputs[..i], inputs[i].client) ==>
      var request := InternalRequest(Calls(inputs[..i]), inputs[i].request);
      Sent1(inputs)[i] == [OutEvent(Register1, request), OutEvent(Register2, request)]
    ensures inputs[i].Reply? ==>
      var past, s := inputs[..i], inputs[i].id;
      Sent1(inputs)[i] == if s < Calls(past) && Responses(past, s) == 0 then
                            var c := Opener(past, s).client;
                            [OutEvent(Client(c), ClientResponse(c, inputs[i].response))]
                          else []
    ensures inputs[i].Clock? ==> Sent1(inputs)[i] == []
  {
    var past := inputs[..i];
    SentAt1(inputs, i);
    F1.SessionStatus(past, if inputs[i].Reply? then inputs[i].id else 0);
    Clients1(past);
    if inputs[i].Call? {
      BusyIffInFlight(past, inputs[i].client);
    }
  }

  // ---- FrontEnd2 ----

  function Outputs2(fe: F2.State, input: Input): seq<OutEvent> {
    match input
    case Call(_, _, request) => FE.OpenEvents(fe.nextSessionId, request)
    case Reply(_, id, response) => F2.ResponseEvents(fe, id, response)
    case Clock(now) => FE.ResendEvents(fe.onGoing, now)
  }

  function Sent2(inputs: seq<Input>): (sent: seq<seq<OutEvent>>)
    ensures |sent| == |inputs|
  {
    if inputs == [] then [] else
      var front := inputs[..|inputs| - 1];
      Sent2(front) + [Outputs2(F2.Run(front), inputs[|inputs| - 1])]
  }

  method Drive2(fe: F2.FrontEnd2, input: Input) returns (outs: seq<OutEvent>)
    requires fe.Valid()
    modifies fe, fe.buffer
    ensures fe.Valid() && (fe.buffer == old(fe.buffer) || fresh(fe.buffer))
    ensures fe.Model() == F2.Step(old(fe.Model()), input)
    ensures outs == Outputs2(old(fe.Model()), input)
  {
    match input {
      case Call(at, client, request) => outs := fe.ReceiveClient(at, client, request);
      case Reply(from, id, response) => outs := fe.ReceiveResponse(from, id, response);
      case Clock(now) => outs := fe.Tick(now);
    }
  }

  /** Drives the reactor itself. */
  method RunFrontEnd2(inputs: seq<Input>) returns (fe: F2.FrontEnd2, sent: seq<seq<OutEvent>>)
    ensures fe.Valid() && fe.Model() == F2.Run(inputs)
    ensures sent == Sent2(inputs)
  {
    fe := new F2.FrontEnd2();
    sent := [];
    for i := 0 to |inputs|
      invariant fe.Valid() && fresh(fe) && fresh(fe.buffer)
      invariant fe.Model() == F2.Run(inputs[..i])
      invariant sent == Sent2(inputs[..i])
    {
      assert inputs[..i + 1][..i] == inputs[..i];
      var outs := Drive2(fe, inputs[i]);
      sent := sent + [outs];
    }
    assert inputs[..|inputs|] == inputs;
  }

  lemma {:induction false} WithoutSessionMembers(es: seq<OnGoing>, s: SessionId)
    ensures forall e :: e in F2.WithoutSession(es, s) <==> e in es && e.sessionId != s
  {
    if es != [] {
      WithoutSessionMembers(es[..|es| - 1], s);
      assert es == es[..|es| - 1] + [es[|es| - 1]];
    }
  }

  lemma {:induction false} WithoutSessionSorted(es: seq<OnGoing>, s: SessionId)
    requires Sorted(es)
    ensures Sorted(F2.WithoutSession(es, s))
  {
    if es != [] {
      var front := es[..|es| - 1];
      WithoutSessionSorted(front, s);
      WithoutSessionMembers(front, s);
      var rest := F2.WithoutSession(front, s);
      forall i | 0 <= i < |rest|
        ensures Before(rest[i].register, rest[i].sessionId, es[|es| - 1].register, es[|es| - 1].sessionId)
      {
        assert rest[i] in front;
      }
    }
  }

  ghost predicate Known2(fe: F2.State, inputs: seq<Input>, sent: seq<seq<OutEvent>>)
    requires |inputs| == |sent|
  {
    EntriesOk(fe.onGoing, inputs, sent) && NothingAhead(inputs, sent) && Clients2Ok(fe, inputs) && Complete(fe)
  }

  ghost predicate Clients2Ok(fe: F2.State, inputs: seq<Input>) {
    forall s :: s in fe.inFlight ==> s < Calls(inputs) && fe.inFlight[s] == Opener(inputs, s).client
  }

  /** Every session in flight waits for both registers. */
  ghost predicate Complete(fe: F2.State) {
    && FE.Waiting(fe.onGoing, Register1) == fe.inFlight.Keys
    && FE.Waiting(fe.onGoing, Register2) == fe.inFlight.Keys
    && forall e :: e in fe.onGoing ==> IsRegister(e.register)
  }

  ghost predicate Requests2(fe: F2.State, input: Input, r: Address, s: SessionId) {
    match input
    case Call(_, _, _) => IsRegister(r) && s == fe.nextSessionId
    case Reply(_, _, _) => false
    case Clock(now) => HasOverdue(fe.onGoing, now, r, s)
  }

  lemma Output2Requests(fe: F2.State, input: Input, r: Address, s: SessionId)
    ensures Requests(Outputs2(fe, input), r, s) <==> Requests2(fe, input, r, s)
  {
    match input
    case Call(at, client, request) => OpenRequests(fe.nextSessionId, request, r, s);
    case Reply(from, id, response) =>
    case Clock(now) => ResendRequests(fe.onGoing, now, r, s);
  }

  lemma Open2Waiting(fe: F2.State, at: Time, client: ClientId, request: Request, r: Address)
    requires IsRegister(r)
    ensures FE.Waiting(F2.Open(fe, at, client, request).onGoing, r) == FE.Waiting(fe.onGoing, r) + {fe.nextSessionId}
  {
    FE.OpenWaiting(FE.State(fe.onGoing, fe.inFlight, fe.nextSessionId), at, client, request, r);
  }

  lemma Step2Complete(fe: F2.State, input: Input)
    requires Complete(fe)
    ensures Complete(F2.Step(fe, input))
  {
    match input
    case Call(at, client, request) =>
      Open2Waiting(fe, at, client, request, Register1);
      Open2Waiting(fe, at, client, request, Register2);
    case Reply(from, id, response) => Remove2Complete(fe, id);
    case Clock(now) =>
      FE.ResendWaiting(fe.onGoing, now, Register1);
      FE.ResendWaiting(fe.onGoing, now, Register2);
  }

  lemma Remove2Complete(fe: F2.State, s: SessionId)
    requires Complete(fe)
    ensures Complete(F2.Remove(fe, s))
  {
    WithoutSessionMembers(fe.onGoing, s);
    assert (fe.inFlight - {s}).Keys == fe.inFlight.Keys - {s};
    forall r | IsRegister(r)
      ensures FE.Waiting(F2.WithoutSession(fe.onGoing, s), r) == FE.Waiting(fe.onGoing, r) - {s}
    {
    }
  }

  lemma Step2Clients(fe: F2.State, inputs: seq<Input>, input: Input)
    requires Clients2Ok(fe, inputs) && fe.nextSessionId == Calls(inputs)
    ensures Clients2Ok(F2.Step(fe, input), inputs + [input])
  {
    OpenerSnoc(inputs, input);
  }

  lemma Step2Entries(fe: F2.State, inputs: seq<Input>, sent: seq<seq<OutEvent>>, input: Input, outs: seq<OutEvent>)
    requires |inputs| == |sent| && EntriesOk(fe.onGoing, inputs, sent) && NothingAhead(inputs, sent)
    requires fe.nextSessionId == Calls(inputs)
    requires forall r, s :: Requests(outs, r, s) <==> Requests2(fe, input, r, s)
    ensures EntriesOk(F2.Step(fe, input).onGoing, inputs + [input], sent + [outs])
  {
    match input
    case Call(at, client, request) => CallEntries(fe.onGoing, inputs, sent, input, outs);
    case Reply(from, id, response) =>
      WithoutSessionMembers(fe.onGoing, id);
      WithoutSessionSorted(fe.onGoing, id);
      FewerEntriesOk(fe.onGoing, F2.Respond(fe, id).onGoing, inputs, sent, input, outs);
    case Clock(now) => ClockEntries(fe.onGoing, inputs, sent, now, outs);
  }

  lemma Step2Ahead(fe: F2.State, inputs: seq<Input>, sent: seq<seq<OutEvent>>, input: Input, outs: seq<OutEvent>)
    requires |inputs| == |sent| && EntriesOk(fe.onGoing, inputs, sent) && NothingAhead(inputs, sent)
    requires fe.nextSessionId == Calls(inputs)
    requires forall r, s :: Requests(outs, r, s) <==> Requests2(fe, input, r, s)
    ensures NothingAhead(inputs + [input], sent + [outs])
  {
    OpenerSnoc(inputs, input);
    NothingAheadSnoc(inputs, sent, input, outs);
  }

  lemma Step2Known(fe: F2.State, inputs: seq<Input>, sent: seq<seq<OutEvent>>, input: Input)
    requires |inputs| == |sent| && Known2(fe, inputs, sent) && fe.nextSessionId == Calls(inputs)
    ensures Known2(F2.Step(fe, input), inputs + [input], sent + [Outputs2(fe, input)])
  {
    forall r, s
      ensures Requests(Outputs2(fe, input), r, s) <==> Requests2(fe, input, r, s)
    {
      Output2Requests(fe, input, r, s);
    }
    Step2Entries(fe, inputs, sent, input, Outputs2(fe, input));
    Step2Ahead(fe, inputs, sent, input, Outputs2(fe, input));
    Step2Clients(fe, inputs, input);
    Step2Complete(fe, input);
  }

  lemma Known2AtStart()
    ensures Known2(F2.Initial, [], [])
  {
    assert FE.Waiting([], Register1) == {} == FE.Waiting([], Register2);
  }

  lemma Run2Snoc(inputs: seq<Input>, input: Input)
    ensures F2.Run(inputs + [input]) == F2.Step(F2.Run(inputs), input)
    ensures Sent2(inputs + [input]) == Sent2(inputs) + [Outputs2(F2.Run(inputs), input)]
  {
    assert (inputs + [input])[..|inputs|] == inputs;
  }

  lemma Known2Snoc(inputs: seq<Input>, input: Input)
    requires Known2(F2.Run(inputs), inputs, Sent2(inputs))
    ensures Known2(F2.Run(inputs + [input]), inputs + [input], Sent2(inputs + [input]))
  {
    F2.SessionStatus(inputs, 0);
    Step2Known(F2.Run(inputs), inputs, Sent2(inputs), input);
    Run2Snoc(inputs, input);
  }

  lemma {:induction false} Run2Known(inputs: seq<Input>)
    ensures Known2(F2.Run(inputs), inputs, Sent2(inputs))
  {
    if inputs == [] {
      Known2AtStart();
    } else {
      Run2Known(inputs[..|inputs| - 1]);
      Known2Snoc(inputs[..|inputs| - 1], inputs[|inputs| - 1]);
      assert inputs == inputs[..|inputs| - 1] + [inputs[|inputs| - 1]];
    }
  }

  lemma {:induction false} SentAt2(inputs: seq<Input>, i: nat)
    requires i < |inputs|
    ensures Sent2(inputs)[i] == Outputs2(F2.Run(inputs[..i]), inputs[i])
  {
    var front := inputs[..|inputs| - 1];
    if i < |front| {
      SentAt2(front, i);
      assert front[..i] == inputs[..i] && front[i] == inputs[i];
    }
  }

  /** FrontEnd2 forwards the second response of each session to the client whose call opened it. */
  lemma SecondResponseIsForwarded(inputs: seq<Input>, i: nat)
    requires i < |inputs| && inputs[i].Reply?
    ensures
      var past, s := inputs[..i], inputs[i].id;
      Sent2(inputs)[i] == if s < Calls(past) && Responses(past, s) == 1 then
                            var c := Opener(past, s).client;
                            [OutEvent(Client(c), ClientResponse(c, inputs[i].response))]
                          else []
  {
    SentAt2(inputs, i);
    Run2Known(inputs[..i]);
    F2.SessionStatus(inputs[..i], inputs[i].id);
  }

  /** It forwards each call to both registers. */
  lemma CallsAreForwarded2(inputs: seq<Input>, i: nat)
    requires i < |inputs| && inputs[i].Call?
    ensures
      var request := InternalRequest(Calls(inputs[..i]), inputs[i].request);
      Sent2(inputs)[i] == [OutEvent(Register1, request), OutEvent(Register2, request)]
  {
    SentAt2(inputs, i);
    F2.SessionStatus(inputs[..i], 0);
  }

  /**
   * A tick sends a request again, to either register, exactly when its session is not answered and the request was
   * last sent more than five seconds ago.
   */
  lemma UnansweredIsResent(inputs: seq<Input>, i: nat, r: Address, s: SessionId, request: Request)
    requires i < |inputs| && inputs[i].Clock?
    ensures
      var past := inputs[..i];
      OutEvent(r, InternalRequest(s, request)) in Sent2(inputs)[i] <==>
        && IsRegister(r) && s < Calls(past) && Responses(past, s) < 2 && request == Opener(past, s).request
        && inputs[i].now > LastSent(past, Sent2(past), r, s) + 5_000_000_000
    ensures InOrder(Sent2(inputs)[i])
  {
    SentAt2(inputs, i);
    Run2Known(inputs[..i]);
    F2.SessionStatus(inputs[..i], s);
    Resent2(inputs[..i], inputs[i].now, r, s, request);
    ResendsInOrder(F2.Run(inputs[..i]).onGoing, inputs[i].now);
  }

  lemma Resent2(past: seq<Input>, now: Time, r: Address, s: SessionId, request: Request)
    requires Known2(F2.Run(past), past, Sent2(past))
    requires s in F2.Run(past).inFlight <==> s < Calls(past) && Responses(past, s) < 2
    ensures OutEvent(r, InternalRequest(s, request)) in FE.ResendEvents(F2.Run(past).onGoing, now) <==>
      && IsRegister(r) && s < Calls(past) && Responses(past, s) < 2 && request == Opener(past, s).request
      && now > LastSent(past, Sent2(past), r, s) + 5_000_000_000
  {
    var es := F2.Run(past).onGoing;
    FE.ResendEventsMembers(es, now);
    if e :| e in es && Overdue(e, now) && OutEvent(r, InternalRequest(s, request)) == ToRegister(e) {
      assert Recorded(e, past, Sent2(past));
    }
    if IsRegister(r) && s in F2.Run(past).inFlight {
      assert s in FE.Waiting(es, r);
      var e :| e in es && e.register == r && e.sessionId == s;
      assert Recorded(e, past, Sent2(past));
      assert Overdue(e, now) ==> ToRegister(e) in FE.ResendEvents(es, now);
    }
  }
}
