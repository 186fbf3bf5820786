/** Whole runs of FrontEnd4 and of its tick-driven twin FrontEnd3 on the same inputs. */
module FrontEndRuns {
  import opened RegisterMessages
  import opened FrontEndState
  import FrontEnd3Reactor
  import FrontEnd4Reactor

  /** What the scheduler can hand a frontend; `Clock` is a tick for FrontEnd3 and a timer for FrontEnd4. */
  datatype Input =
    | Call(at: Time, client: ClientId, request: Request)
    | Reply(from: Address, id: SessionId, response: Response)
    | Clock(now: Time)

  function Step(fe: State, input: Input): State {
    match input
    case Call(at, client, request) => Open(fe, at, client, request)
    case Reply(from, id, _) => Settle(fe, from, id)
    case Clock(now) => Elapse(fe, now)
  }

  function Run(inputs: seq<Input>): State {
    if inputs == [] then Initial else Step(Run(inputs[..|inputs| - 1]), inputs[|inputs| - 1])
  }

  function Outputs3(fe: State, input: Input): seq<OutEvent> {
    match input
    case Call(_, _, request) => OpenEvents(fe.nextSessionId, request)
    case Reply(from, id, response) => FrontEnd3Reactor.ResponseEvents(fe, from, id, response)
    case Clock(now) => ResendEvents(fe.onGoing, now)
  }

  function Outputs4(fe: State, input: Input): seq<OutEvent> {
    match input
    case Call(_, _, request) => OpenEvents(fe.nextSessionId, request) + [RENEW_TIMER]
    case Reply(from, id, response) => FrontEnd4Reactor.ResponseEvents(fe, from, id, response)
    case Clock(now) => FrontEnd4Reactor.TimerEvents(fe, now)
  }

  lemma {:induction false} RunConsistent(inputs: seq<Input>)
    ensures Consistent(Run(inputs))
  {
    if inputs != [] {
      var front := inputs[..|inputs| - 1];
      RunConsistent(front);
      match inputs[|inputs| - 1]
      case Call(at, client, request) => OpenConsistent(Run(front), at, client, request);
      case Reply(from, id, _) => SettleConsistent(Run(front), from, id);
      case Clock(now) => ElapseConsistent(Run(front), now);
    }
  }

  // ---- Lockstep of the twins ----

  /** Removes the one timer event with which FrontEnd4 ends an output. */
  function Untimed(outs: seq<OutEvent>): seq<OutEvent> {
    if outs != [] && outs[|outs| - 1] == RENEW_TIMER then outs[..|outs| - 1] else outs
  }

  /** A response for a session that is not in flight. */
  predicate Stray(fe: State, input: Input) {
    input.Reply? && input.id !in fe.inFlight
  }

  /** In flight, FrontEnd4's extra `found` test never changes the outcome. */
  lemma FoundIsImplied(fe: State, from: Address, s: SessionId)
    requires Consistent(fe) && s in fe.inFlight
    ensures FrontEnd3Reactor.NoMore(fe, from, s) <==> Completes(fe, from, s)
  {
    WithoutMembers(fe.onGoing, from, s);
    HasSessionIffWaiting(Without(fe.onGoing, from, s), s);
    HasEntryIffWaiting(fe.onGoing, from, s);
    WithoutWaiting(fe.onGoing, from, s, Register1);
    WithoutWaiting(fe.onGoing, from, s, Register2);
  }

  lemma LockstepOne(fe: State, input: Input)
    requires Consistent(fe)
    ensures Untimed(Outputs4(fe, input)) == Outputs3(fe, input) <==> !Stray(fe, input)
    ensures Stray(fe, input) ==>
      Outputs4(fe, input) == [] && Outputs3(fe, input) == [ToClient(0, input.response)]
  {
    if input.Reply? && input.id in fe.inFlight {
      FoundIsImplied(fe, input.from, input.id);
    } else if input.Clock? {
      ResendEventsMembers(fe.onGoing, input.now);
      var outs := ResendEvents(fe.onGoing, input.now);
      assert outs == [] || outs[|outs| - 1] in outs;
    }
  }

  /** What each step of a run sends. */
  function Sent3(inputs: seq<Input>): (sent: seq<seq<OutEvent>>)
    ensures |sent| == |inputs|
  {
    if inputs == [] then [] else
      var front := inputs[..|inputs| - 1];
      Sent3(front) + [Outputs3(Run(front), inputs[|inputs| - 1])]
  }

  function Sent4(inputs: seq<Input>): (sent: seq<seq<OutEvent>>)
    ensures |sent| == |inputs|
  {
    if inputs == [] then [] else
      var front := inputs[..|inputs| - 1];
      Sent4(front) + [Outputs4(Run(front), inputs[|inputs| - 1])]
  }

  ghost predicate StrayFree(inputs: seq<Input>) {
    inputs != [] ==>
      var front := inputs[..|inputs| - 1];
      StrayFree(front) && !Stray(Run(front), inputs[|inputs| - 1])
  }

  /** Step by step the same messages, FrontEnd4's timers aside. */
  ghost predicate SameButTimers(sent4: seq<seq<OutEvent>>, sent3: seq<seq<OutEvent>>) {
    |sent4| == |sent3| && forall k :: 0 <= k < |sent4| ==> Untimed(sent4[k]) == sent3[k]
  }

  lemma SameButTimersSnoc(sent4: seq<seq<OutEvent>>, sent3: seq<seq<OutEvent>>, out4: seq<OutEvent>, out3: seq<OutEvent>)
    requires |sent4| == |sent3|
    ensures SameButTimers(sent4 + [out4], sent3 + [out3]) <==> SameButTimers(sent4, sent3) && Untimed(out4) == out3
  {
    var all4, all3 := sent4 + [out4], sent3 + [out3];
    if SameButTimers(all4, all3) {
      assert all4[|sent4|] == out4 && all3[|sent4|] == out3;
      assert forall k :: 0 <= k < |sent4| ==> all4[k] == sent4[k] && all3[k] == sent3[k];
    }
  }

  /** On equal inputs the twins send the same messages exactly when no stray response ever arrives. */
  lemma {:induction false} Lockstep(inputs: seq<Input>)
    ensures SameButTimers(Sent4(inputs), Sent3(inputs)) <==> StrayFree(inputs)
  {
    if inputs != [] {
      var front, last := inputs[..|inputs| - 1], inputs[|inputs| - 1];
      Lockstep(front);
      RunConsistent(front);
      LockstepOne(Run(front), last);
      SameButTimersSnoc(Sent4(front), Sent3(front), Outputs4(Run(front), last), Outputs3(Run(front), last));
    }
  }

  method Drive3(fe: FrontEnd3Reactor.FrontEnd3, input: Input) returns (outs: seq<OutEvent>)
    requires fe.Valid()
    modifies fe, fe.buffer
    ensures fe.Valid() && (fe.buffer == old(fe.buffer) || fresh(fe.buffer))
    ensures fe.Model() == Step(old(fe.Model()), input)
    ensures outs == Outputs3(old(fe.Model()), input)
  {
    match input {
      case Call(at, client, request) => outs := fe.ReceiveClient(at, client, request);
      case Reply(from, id, response) => outs := fe.ReceiveResponse(from, id, response);
      case Clock(now) => outs := fe.Tick(now);
    }
  }

  method Drive4(fe: FrontEnd4Reactor.FrontEnd4, input: Input) returns (outs: seq<OutEvent>)
    requires fe.Valid()
    modifies fe, fe.buffer
    ensures fe.Valid() && (fe.buffer == old(fe.buffer) || fresh(fe.buffer))
    ensures fe.Model() == Step(old(fe.Model()), input)
    ensures outs == Outputs4(old(fe.Model()), input)
  {
    match input {
      case Call(at, client, request) => outs := fe.ReceiveClient(at, client, request);
      case Reply(from, id, response) => outs := fe.ReceiveResponse(from, id, response);
      case Clock(now) => outs := fe.Timer(now);
    }
  }

  /** Drives the reactor itself: its state after any inputs is `Run`, whichever twin it is. */
  method RunFrontEnd3(inputs: seq<Input>) returns (fe: FrontEnd3Reactor.FrontEnd3, sent: seq<seq<OutEvent>>)
    ensures fe.Valid() && fe.Model() == Run(inputs)
    ensures sent == Sent3(inputs)
  {
    fe := new FrontEnd3Reactor.FrontEnd3();
    sent := [];
    for i := 0 to |inputs|
      invariant fe.Valid() && fresh(fe) && fresh(fe.buffer)
      invariant fe.Model() == Run(inputs[..i])
      invariant sent == Sent3(inputs[..i])
    {
      assert inputs[..i + 1][..i] == inputs[..i];
      var outs := Drive3(fe, inputs[i]);
      sent := sent + [outs];
    }
    assert inputs[..|inputs|] == inputs;
  }

  /** Drives the reactor itself: its state after any inputs is `Run`, whichever twin it is. */
  method RunFrontEnd4(inputs: seq<Input>) returns (fe: FrontEnd4Reactor.FrontEnd4, sent: seq<seq<OutEvent>>)
    ensures fe.Valid() && fe.Model() == Run(inputs)
    ensures sent == Sent4(inputs)
  {
    fe := new FrontEnd4Reactor.FrontEnd4();
    sent := [];
    for i := 0 to |inputs|
      invariant fe.Valid() && fresh(fe) && fresh(fe.buffer)
      invariant fe.Model() == Run(inputs[..i])
      invariant sent == Sent4(inputs[..i])
    {
      assert inputs[..i + 1][..i] == inputs[..i];
      var outs := Drive4(fe, inputs[i]);
      sent := sent + [outs];
    }
    assert inputs[..|inputs|] == inputs;
  }

  // ---- When FrontEnd4 answers ----

  function Calls(inputs: seq<Input>): nat {
    if inputs == [] then 0 else Calls(inputs[..|inputs| - 1]) + if inputs[|inputs| - 1].Call? then 1 else 0
  }

  /** The senders of the responses that arrived for session `s` since it was opened. */
  function Responders(inputs: seq<Input>, s: SessionId): set<Address> {
    if inputs == [] then {} else
      var front := inputs[..|inputs| - 1];
      var last := inputs[|inputs| - 1];
      Responders(front, s) + if last.Reply? && last.id == s < Calls(front) then {last.from} else {}
  }

  lemma RespondersSnoc(inputs: seq<Input>, from: Address, s: SessionId, response: Response)
    ensures Responders(inputs + [Reply(from, s, response)], s)
         == Responders(inputs, s) + if s < Calls(inputs) then {from} else {}
  {
    assert (inputs + [Reply(from, s, response)])[..|inputs|] == inputs;
  }

  /** How many responses arrived for session `s` since it was opened. */
  function Responses(inputs: seq<Input>, s: SessionId): nat {
    if inputs == [] then 0 else
      var front, last := inputs[..|inputs| - 1], inputs[|inputs| - 1];
      Responses(front, s) + if last.Reply? && last.id == s < Calls(front) then 1 else 0
  }

  lemma {:induction false} RespondersOfResponses(inputs: seq<Input>, s: SessionId)
    ensures Responses(inputs, s) == 0 <==> Responders(inputs, s) == {}
    ensures Responses(inputs, s) == 1 ==> exists a :: Responders(inputs, s) == {a}
  {
    if inputs != [] {
      RespondersOfResponses(inputs[..|inputs| - 1], s);
    }
  }

  /** How often FrontEnd4 has replied to the client of session `s`. */
  function Answers(inputs: seq<Input>, s: SessionId): nat {
    if inputs == [] then 0 else
      var front := inputs[..|inputs| - 1];
      var last := inputs[|inputs| - 1];
      Answers(front, s) + if last.Reply? && last.id == s && Completes(Run(front), last.from, s) then 1 else 0
  }

  lemma {:induction false} SessionsAreCalls(inputs: seq<Input>)
    ensures Run(inputs).nextSessionId == Calls(inputs)
  {
    if inputs != [] {
      SessionsAreCalls(inputs[..|inputs| - 1]);
    }
  }

  lemma StepWaiting(fe: State, input: Input, r: Address)
    requires Consistent(fe) && IsRegister(r)
    ensures Waiting(Step(fe, input).onGoing, r) ==
      if input.Call? then Waiting(fe.onGoing, r) + {fe.nextSessionId}
      else if input.Reply? && input.from == r then Waiting(fe.onGoing, r) - {input.id}
      else Waiting(fe.onGoing, r)
  {
    match input
    case Call(at, client, request) => OpenWaiting(fe, at, client, request, r);
    case Reply(from, id, _) => SettleWaiting(fe, from, id);
    case Clock(now) => ResendWaiting(fe.onGoing, now, r);
  }

  lemma {:induction false} WaitingIsNotResponded(inputs: seq<Input>, r: Address, s: SessionId)
    requires IsRegister(r)
    ensures s in Waiting(Run(inputs).onGoing, r) <==> s < Calls(inputs) && r !in Responders(inputs, s)
    ensures s >= Calls(inputs) ==> Responders(inputs, s) == {}
  {
    if inputs != [] {
      var front := inputs[..|inputs| - 1];
      WaitingIsNotResponded(front, r, s);
      SessionsAreCalls(front);
      RunConsistent(front);
      StepWaiting(Run(front), inputs[|inputs| - 1], r);
    }
  }

  /** FrontEnd4 answers a session once, and exactly when both registers have responded since it was opened. */
  lemma {:induction false} AnswersIffBothResponded(inputs: seq<Input>, s: SessionId)
    ensures Answers(inputs, s) == if {Register1, Register2} <= Responders(inputs, s) then 1 else 0
  {
    if inputs != [] {
      var front := inputs[..|inputs| - 1];
      AnswersIffBothResponded(front, s);
      RunConsistent(front);
      WaitingIsNotResponded(front, Register1, s);
      WaitingIsNotResponded(front, Register2, s);
      var last := inputs[|inputs| - 1];
      if last.Reply? {
        CompletesIff(Run(front), last.from, s);
      }
    }
  }
}
