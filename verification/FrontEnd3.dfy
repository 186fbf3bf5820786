/** The tick-driven frontend: FrontEnd4 without the `found` test and without timers of its own. */
module FrontEnd3Reactor {
  import opened RegisterMessages
  import opened FrontEndState
  import OnGoingSlice

  class FrontEnd3 {
    var buffer: array<OnGoing>
    var length: nat
    var inFlight: map<SessionId, ClientId>
    var nextSessionId: nat

    ghost predicate Valid()
      reads this
    {
      length <= buffer.Length
    }

    ghost function Model(): State
      requires Valid()
      reads this, buffer
    {
      State(buffer[..length], inFlight, nextSessionId)
    }

    constructor ()
      ensures Valid() && fresh(buffer)
      ensures Model() == Initial
    {
      buffer := new OnGoing[0];
      length := 0;
      inFlight := map[];
      nextSessionId := 0;
    }

    method ReceiveClient(at: Time, client: ClientId, request: Request) returns (outs: seq<OutEvent>)
      requires Valid()
      modifies this, buffer
      ensures Valid() && (buffer == old(buffer) || fresh(buffer))
      ensures Model() == Open(old(Model()), at, client, request)
      ensures outs == OpenEvents(old(nextSessionId), request)
    {
      ghost var es := buffer[..length];
      var sessionId := nextSessionId;
      nextSessionId := nextSessionId + 1;
      inFlight := inFlight[sessionId := client];
      buffer := OnGoingSlice.Append(buffer, length, Entry(Register1, request, sessionId, at));
      length := length + 1;
      buffer := OnGoingSlice.Append(buffer, length, Entry(Register2, request, sessionId, at));
      length := length + 1;
      assert buffer[..length] == es + [Entry(Register1, request, sessionId, at)] + [Entry(Register2, request, sessionId, at)];
      outs := [OutEvent(Register1, InternalRequest(sessionId, request)),
               OutEvent(Register2, InternalRequest(sessionId, request))];
    }

    method RemoveSession(from: Address, sessionId: SessionId) returns (client: ClientId, noMore: bool)
      requires Valid()
      modifies this`length, this`inFlight, buffer
      ensures Valid()
      ensures Model() == Settle(old(Model()), from, sessionId)
      ensures client == ClientOf(old(Model()), sessionId)
      ensures noMore <==> NoMore(old(Model()), from, sessionId)
    {
      var ok := sessionId in inFlight;
      client := if ok then inFlight[sessionId] else 0;
      noMore := true;
      if ok {
        var write, found;
        write, noMore, found := OnGoingSlice.FilterInPlace(buffer, length, from, sessionId);
        if noMore {
          inFlight := inFlight - {sessionId};
        }
        length := write;
      }
    }

    method ReceiveResponse(from: Address, id: SessionId, response: Response) returns (outs: seq<OutEvent>)
      requires Valid()
      modifies this`length, this`inFlight, buffer
      ensures Valid()
      ensures Model() == Settle(old(Model()), from, id)
      ensures outs == ResponseEvents(old(Model()), from, id, response)
    {
      var client, noMore := RemoveSession(from, id);
      outs := [];
      if noMore {
        outs := [ToClient(client, response)];
      }
    }

    method Tick(at: Time) returns (resend: seq<OutEvent>)
      requires Valid()
      modifies buffer
      ensures Valid()
      ensures Model() == Elapse(old(Model()), at)
      ensures resend == ResendEvents(old(Model()).onGoing, at)
    {
      resend := OnGoingSlice.ResendInPlace(buffer, length, at);
    }
  }

  /** FrontEnd3's test: also true when the session is not in flight at all. */
  predicate NoMore(fe: State, from: Address, s: SessionId) {
    s in fe.inFlight ==> !HasSession(Without(fe.onGoing, from, s), s)
  }

  function ResponseEvents(fe: State, from: Address, id: SessionId, response: Response): seq<OutEvent> {
    if NoMore(fe, from, id) then [ToClient(ClientOf(fe, id), response)] else []
  }
}
