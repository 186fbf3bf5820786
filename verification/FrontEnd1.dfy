/** The frontend that answers with the first response it gets. */
module FrontEnd1Reactor {
  import opened RegisterMessages
  import opened FrontEndRuns
  import FE = FrontEndState

  datatype SessionIdWithContext = SessionIdWithContext(id: SessionId, at: Time)

  datatype State = State(
    inFlight: map<ClientId, SessionIdWithContext>,
    sessionToClient: map<SessionId, ClientId>,
    nextSessionId: nat)

  const Initial := State(map[], map[], 0)

  datatype Result<T> = Ok(value: T) | Err(client: ClientId)

  function Open(fe: State, at: Time, client: ClientId): State {
    State(fe.inFlight[client := SessionIdWithContext(fe.nextSessionId, at)],
          fe.sessionToClient[fe.nextSessionId := client],
          fe.nextSessionId + 1)
  }

  function Remove(fe: State, s: SessionId): State {
    if s in fe.sessionToClient
    then State(fe.inFlight - {fe.sessionToClient[s]}, fe.sessionToClient - {s}, fe.nextSessionId)
    else fe
  }

  function ResponseEvents(fe: State, s: SessionId, response: Response): seq<OutEvent> {
    if s in fe.sessionToClient then [ToClient(fe.sessionToClient[s], response)] else []
  }

  class FrontEnd1 {
    var inFlight: map<ClientId, SessionIdWithContext>
    var sessionToClient: map<SessionId, ClientId>
    var nextSessionId: nat

    ghost function Model(): State
      reads this
    {
      State(inFlight, sessionToClient, nextSessionId)
    }

    constructor ()
      ensures Model() == Initial
    {
      inFlight, sessionToClient, nextSessionId := map[], map[], 0;
    }

    /** Refuses a client that already has a session, without changing anything. */
    method NewSessionId(client: ClientId, at: Time) returns (r: Result<SessionId>)
      modifies this
      ensures r == if client in old(inFlight) then Err(client) else Ok(old(nextSessionId))
      ensures Model() == if r.Ok? then Open(old(Model()), at, client) else old(Model())
    {
      if client in inFlight {
        return Err(client);
      }
      r := Ok(nextSessionId);
      inFlight := inFlight[client := SessionIdWithContext(nextSessionId, at)];
      sessionToClient := sessionToClient[nextSessionId := client];
      nextSessionId := nextSessionId + 1;
    }

    method RemoveSession(s: SessionId) returns (client: ClientId, ok: bool)
      modifies this
      ensures Model() == Remove(old(Model()), s)
      ensures ok <==> s in old(sessionToClient)
      ensures ok ==> client == old(sessionToClient)[s]
    {
      ok := s in sessionToClient;
      client := if ok then sessionToClient[s] else 0;
      if ok {
        inFlight := inFlight - {client};
        sessionToClient := sessionToClient - {s};
      }
    }

    /** A client with a session in flight ends the process. */
    method ReceiveClient(at: Time, client: ClientId, request: Request) returns (outs: seq<OutEvent>)
      requires client !in inFlight
      modifies this
      ensures Model() == Open(old(Model()), at, client)
      ensures outs == FE.OpenEvents(old(nextSessionId), request)
    {
      var r := NewSessionId(client, at);
      outs := [OutEvent(Register1, InternalRequest(r.value, request)),
               OutEvent(Register2, InternalRequest(r.value, request))];
    }

    method ReceiveResponse(from: Address, id: SessionId, response: Response) returns (outs: seq<OutEvent>)
      modifies this
      ensures Model() == Remove(old(Model()), id)
      ensures outs == ResponseEvents(old(Model()), id, response)
    {
      var client, ok := RemoveSession(id);
      outs := [];
      if ok {
        outs := [ToClient(client, response)];
      }
    }
  }

  // ---- Runs ----

  datatype Run = Exited | Running(fe: State)

  function Step(run: Run, input: Input): Run {
    match run
    case Exited => Exited
    case Running(fe) =>
      match input
      case Call(at, client, _) => if client in fe.inFlight then Exited else Running(Open(fe, at, client))
      case Reply(_, id, _) => Running(Remove(fe, id))
      case Clock(_) => run
  }

  function RunAll(inputs: seq<Input>): Run {
    if inputs == [] then Running(Initial) else Step(RunAll(inputs[..|inputs| - 1]), inputs[|inputs| - 1])
  }

  /** The two tables are inverse to each other. */
  ghost predicate Inverse(fe: State) {
    && (forall c :: c in fe.inFlight ==>
          fe.inFlight[c].id in fe.sessionToClient && fe.sessionToClient[fe.inFlight[c].id] == c)
    && (forall s :: s in fe.sessionToClient ==>
          && s < fe.nextSessionId
          && fe.sessionToClient[s] in fe.inFlight && fe.inFlight[fe.sessionToClient[s]].id == s)
  }

  lemma {:induction false} TablesAreInverse(inputs: seq<Input>)
    ensures RunAll(inputs).Running? ==> Inverse(RunAll(inputs).fe)
  {
    if inputs != [] {
      TablesAreInverse(inputs[..|inputs| - 1]);
    }
  }

  function Answers(inputs: seq<Input>, s: SessionId): nat {
    if inputs == [] then 0 else
      var front, last := inputs[..|inputs| - 1], inputs[|inputs| - 1];
      Answers(front, s) +
      if last.Reply? && last.id == s && RunAll(front).Running? && s in RunAll(front).fe.sessionToClient then 1 else 0
  }

  lemma {:induction false} SessionStatus(inputs: seq<Input>, s: SessionId)
    requires RunAll(inputs).Running?
    ensures RunAll(inputs).fe.nextSessionId == Calls(inputs)
    ensures s in RunAll(inputs).fe.sessionToClient
       <==> s < Calls(inputs) && Responses(inputs, s) == 0
    ensures s >= Calls(inputs) ==> Responses(inputs, s) == 0
  {
    if inputs != [] {
      SessionStatus(inputs[..|inputs| - 1], s);
    }
  }

  /** FrontEnd1 answers a session once, and exactly when one response arrived for it. */
  lemma {:induction false} AnswersIffOneResponse(inputs: seq<Input>, s: SessionId)
    requires RunAll(inputs).Running?
    ensures Answers(inputs, s) == if Responses(inputs, s) >= 1 then 1 else 0
  {
    if inputs != [] {
      AnswersIffOneResponse(inputs[..|inputs| - 1], s);
      SessionStatus(inputs[..|inputs| - 1], s);
    }
  }

  /** Whenever FrontEnd1 answers, only the sender of this response has responded. */
  lemma AnswersAfterOneResponder(inputs: seq<Input>, from: Address, s: SessionId, response: Response)
    requires RunAll(inputs).Running? && s in RunAll(inputs).fe.sessionToClient
    ensures Responders(inputs + [Reply(from, s, response)], s) == {from}
    ensures !({Register1, Register2} <= Responders(inputs + [Reply(from, s, response)], s))
  {
    SessionStatus(inputs, s);
    RespondersOfResponses(inputs, s);
    RespondersSnoc(inputs, from, s, response);
    assert !({Register1, Register2} <= {from}) by {
      assert Register1 in {Register1, Register2} && Register2 in {Register1, Register2};
    }
  }
}
