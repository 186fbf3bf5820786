/** The frontend that answers after two responses, whoever sent them. */
module FrontEnd2Reactor {
  import opened RegisterMessages
  import opened FrontEndRuns
  import FE = FrontEndState
  import OnGoingSlice

  datatype State = State(
    onGoing: seq<OnGoing>,
    inFlight: map<SessionId, ClientId>,
    receivedResponse: map<SessionId, bool>,
    nextSessionId: nat)

  const Initial := State([], map[], map[], 0)

  function Open(fe: State, at: Time, client: ClientId, request: Request): State {
    var s := fe.nextSessionId;
    State(fe.onGoing + [FE.Entry(Register1, request, s, at), FE.Entry(Register2, request, s, at)],
          fe.inFlight[s := client],
          fe.receivedResponse[s := false],
          s + 1)
  }

  function WithoutSession(es: seq<OnGoing>, s: SessionId): seq<OnGoing> {
    if es == [] then [] else
      var rest := WithoutSession(es[..|es| - 1], s);
      if es[|es| - 1].sessionId == s then rest else rest + [es[|es| - 1]]
  }

  function Remove(fe: State, s: SessionId): State {
    if s in fe.inFlight then fe.(onGoing := WithoutSession(fe.onGoing, s), inFlight := fe.inFlight - {s}) else fe
  }

  predicate Repeated(fe: State, s: SessionId) {
    s in fe.receivedResponse && fe.receivedResponse[s]
  }

  function Respond(fe: State, s: SessionId): State {
    if Repeated(fe, s) then Remove(fe, s) else fe.(receivedResponse := fe.receivedResponse[s := true])
  }

  predicate Completes(fe: State, s: SessionId) {
    Repeated(fe, s) && s in fe.inFlight
  }

  function ResponseEvents(fe: State, s: SessionId, response: Response): seq<OutEvent> {
    if Completes(fe, s) then [ToClient(fe.inFlight[s], response)] else []
  }

  class FrontEnd2 {
    var buffer: array<OnGoing>
    var length: nat
    var inFlight: map<SessionId, ClientId>
    var receivedResponse: map<SessionId, bool>
    var nextSessionId: nat

    ghost predicate Valid()
      reads this
    {
      length <= buffer.Length
    }

    ghost function Model(): State
      requires Valid()
      reads this, buffer
    {
      State(buffer[..length], inFlight, receivedResponse, nextSessionId)
    }

    constructor ()
      ensures Valid() && fresh(buffer)
      ensures Model() == Initial
    {
      buffer := new OnGoing[0];
      length := 0;
      inFlight, receivedResponse := map[], map[];
      nextSessionId := 0;
    }

    method ReceiveClient(at: Time, client: ClientId, request: Request) returns (outs: seq<OutEvent>)
      requires Valid()
      modifies this, buffer
      ensures Valid() && (buffer == old(buffer) || fresh(buffer))
      ensures Model() == Open(old(Model()), at, client, request)
      ensures outs == FE.OpenEvents(old(nextSessionId), request)
    {
      ghost var es := buffer[..length];
      var sessionId := nextSessionId;
      nextSessionId := nextSessionId + 1;
      inFlight := inFlight[sessionId := client];
      receivedResponse := receivedResponse[sessionId := false];
      buffer := OnGoingSlice.Append(buffer, length, FE.Entry(Register1, request, sessionId, at));
      length := length + 1;
      buffer := OnGoingSlice.Append(buffer, length, FE.Entry(Register2, request, sessionId, at));
      length := length + 1;
      assert buffer[..length] ==
        es + [FE.Entry(Register1, request, sessionId, at)] + [FE.Entry(Register2, request, sessionId, at)];
      outs := [OutEvent(Register1, InternalRequest(sessionId, request)),
               OutEvent(Register2, InternalRequest(sessionId, request))];
    }

    method RemoveSession(sessionId: SessionId) returns (client: ClientId, ok: bool)
      requires Valid()
      modifies this`length, this`inFlight, buffer
      ensures Valid()
      ensures Model() == Remove(old(Model()), sessionId)
      ensures ok <==> sessionId in old(inFlight)
      ensures ok ==> client == old(inFlight)[sessionId]
    {
      ok := sessionId in inFlight;
      client := if ok then inFlight[sessionId] else 0;
      if ok {
        inFlight := inFlight - {sessionId};
        length := FilterInPlace(buffer, length, sessionId);
      }
    }

    method ReceiveResponse(from: Address, id: SessionId, response: Response) returns (outs: seq<OutEvent>)
      requires Valid()
      modifies this, buffer
      ensures Valid() && buffer == old(buffer)
      ensures Model() == Respond(old(Model()), id)
      ensures outs == ResponseEvents(old(Model()), id, response)
    {
      outs := [];
      if id !in receivedResponse || !receivedResponse[id] {
        receivedResponse := receivedResponse[id := true];
      } else {
        var client, ok := RemoveSession(id);
        if ok {
          outs := [ToClient(client, response)];
        }
      }
    }

    method Tick(at: Time) returns (resend: seq<OutEvent>)
      requires Valid()
      modifies buffer
      ensures Valid()
      ensures Model() == old(Model()).(onGoing := FE.Resend(old(buffer[..length]), at))
      ensures resend == FE.ResendEvents(old(buffer[..length]), at)
    {
      resend := OnGoingSlice.ResendInPlace(buffer, length, at);
    }
  }

  method FilterInPlace(buffer: array<OnGoing>, length: nat, s: SessionId) returns (write: nat)
    requires length <= buffer.Length
    modifies buffer
    ensures write <= length
    ensures buffer[..write] == WithoutSession(old(buffer[..length]), s)
  {
    ghost var es := buffer[..length];
    ghost var kept: seq<OnGoing> := [];
    write := 0;
    for read := 0 to length
      invariant |kept| == write <= read
      invariant forall k :: read <= k < length ==> buffer[k] == es[k]
      invariant forall k :: 0 <= k < write ==> buffer[k] == kept[k]
      invariant kept == WithoutSession(es[..read], s)
    {
      assert es[..read + 1][..read] == es[..read];
      var on := buffer[read];
      if on.sessionId != s {
        buffer[write] := on;
        write := write + 1;
        kept := kept + [on];
      }
    }
    assert es[..length] == es;
    assert buffer[..write] == kept;
  }

  // ---- When FrontEnd2 answers ----

  function Step(fe: State, input: Input): State {
    match input
    case Call(at, client, request) => Open(fe, at, client, request)
    case Reply(_, id, _) => Respond(fe, id)
    case Clock(now) => fe.(onGoing := FE.Resend(fe.onGoing, now))
  }

  function Run(inputs: seq<Input>): State {
    if inputs == [] then Initial else Step(Run(inputs[..|inputs| - 1]), inputs[|inputs| - 1])
  }

  /** How often FrontEnd2 has replied to the client of session `s`. */
  function Answers(inputs: seq<Input>, s: SessionId): nat {
    if inputs == [] then 0 else
      var front, last := inputs[..|inputs| - 1], inputs[|inputs| - 1];
      Answers(front, s) + if last.Reply? && last.id == s && Completes(Run(front), s) then 1 else 0
  }

  lemma {:induction false} SessionStatus(inputs: seq<Input>, s: SessionId)
    ensures Run(inputs).nextSessionId == Calls(inputs)
    ensures s >= Calls(inputs) ==> s !in Run(inputs).inFlight && Responses(inputs, s) == 0
    ensures s < Calls(inputs) ==>
      && (s in Run(inputs).inFlight <==> Responses(inputs, s) < 2)
      && (Repeated(Run(inputs), s) <==> Responses(inputs, s) >= 1)
  {
    if inputs != [] {
      SessionStatus(inputs[..|inputs| - 1], s);
    }
  }

  /** FrontEnd2 answers a session once, and exactly when two responses arrived for it, even from one register. */
  lemma {:induction false} AnswersIffTwoResponses(inputs: seq<Input>, s: SessionId)
    ensures Answers(inputs, s) == if Responses(inputs, s) >= 2 then 1 else 0
  {
    if inputs != [] {
      AnswersIffTwoResponses(inputs[..|inputs| - 1], s);
      SessionStatus(inputs[..|inputs| - 1], s);
    }
  }

  /**
   * When FrontEnd2 answers, one response had arrived before; both registers have responded exactly when this
   * response comes from another sender than that one.
   */
  lemma AnswerIsSoundIff(inputs: seq<Input>, from: Address, s: SessionId, response: Response)
    requires Completes(Run(inputs), s) && IsRegister(from)
    requires forall a :: a in Responders(inputs, s) ==> IsRegister(a)
    ensures |Responders(inputs, s)| == 1
    ensures {Register1, Register2} <= Responders(inputs + [Reply(from, s, response)], s)
       <==> from !in Responders(inputs, s)
  {
    SessionStatus(inputs, s);
    RespondersOfResponses(inputs, s);
    RespondersSnoc(inputs, from, s, response);
    var first :| Responders(inputs, s) == {first};
    assert {Register1, Register2} <= {first} + {from} <==> from != first;
  }
}
