/** The timer-driven frontend. `OnGoing` is a Go slice: a buffer and the length in use. */
module FrontEnd4Reactor {
  import opened RegisterMessages
  import opened FrontEndState
  import OnGoingSlice

  class FrontEnd4 {
    var buffer: array<OnGoing>
    var length: nat
    var inFlight: map<SessionId, ClientId>
    var nextSessionId: nat

    ghost predicate Valid()
      reads this
    {
      length <= buffer.Length
    }

    ghost function Model(): State
      requires Valid()
      reads this, buffer
    {
      State(buffer[..length], inFlight, nextSessionId)
    }

    constructor ()
      ensures Valid() && fresh(buffer)
      ensures Model() == Initial
    {
      buffer := new OnGoing[0];
      length := 0;
      inFlight := map[];
      nextSessionId := 0;
    }

    method ReceiveClient(at: Time, client: ClientId, request: Request) returns (outs: seq<OutEvent>)
      requires Valid()
      modifies this, buffer
      ensures Valid() && (buffer == old(buffer) || fresh(buffer))
      ensures Model() == Open(old(Model()), at, client, request)
      ensures outs == OpenEvents(old(nextSessionId), request) + [RENEW_TIMER]
    {
      ghost var es := buffer[..length];
      var sessionId := nextSessionId;
      nextSessionId := nextSessionId + 1;
      inFlight := inFlight[sessionId := client];
      buffer := OnGoingSlice.Append(buffer, length, Entry(Register1, request, sessionId, at));
      length := length + 1;
      buffer := OnGoingSlice.Append(buffer, length, Entry(Register2, request, sessionId, at));
      length := length + 1;
      assert buffer[..length] == es + [Entry(Register1, request, sessionId, at)] + [Entry(Register2, request, sessionId, at)];
      outs := [OutEvent(Register1, InternalRequest(sessionId, request)),
               OutEvent(Register2, InternalRequest(sessionId, request)),
               RENEW_TIMER];
    }

    method RemoveSession(from: Address, sessionId: SessionId) returns (client: ClientId, done: bool)
      requires Valid()
      modifies this`length, this`inFlight, buffer
      ensures Valid()
      ensures Model() == Settle(old(Model()), from, sessionId)
      ensures client == ClientOf(old(Model()), sessionId)
      ensures done <==> Completes(old(Model()), from, sessionId)
    {
      var ok := sessionId in inFlight;
      client := if ok then inFlight[sessionId] else 0;
      var noMore, found := true, false;
      if ok {
        var write;
        write, noMore, found := OnGoingSlice.FilterInPlace(buffer, length, from, sessionId);
        if noMore {
          inFlight := inFlight - {sessionId};
        }
        length := write;
      }
      done := noMore && found;
    }

    method ReceiveResponse(from: Address, id: SessionId, response: Response) returns (outs: seq<OutEvent>)
      requires Valid()
      modifies this`length, this`inFlight, buffer
      ensures Valid()
      ensures Model() == Settle(old(Model()), from, id)
      ensures outs == ResponseEvents(old(Model()), from, id, response)
    {
      var client, noMore := RemoveSession(from, id);
      outs := [];
      if noMore {
        outs := [ToClient(client, response)];
      }
    }

    method Timer(at: Time) returns (resend: seq<OutEvent>)
      requires Valid()
      modifies buffer
      ensures Valid()
      ensures Model() == Elapse(old(Model()), at)
      ensures resend == TimerEvents(old(Model()), at)
    {
      resend := OnGoingSlice.ResendInPlace(buffer, length, at);
      if |resend| > 0 {
        resend := resend + [RENEW_TIMER];
      }
    }
  }

  function ResponseEvents(fe: State, from: Address, id: SessionId, response: Response): seq<OutEvent> {
    if Completes(fe, from, id) then [ToClient(fe.inFlight[id], response)] else []
  }

  /** What FrontEnd4 sends when its timer fires. */
  function TimerEvents(fe: State, at: Time): seq<OutEvent> {
    var resent := ResendEvents(fe.onGoing, at);
    if |resent| > 0 then resent + [RENEW_TIMER] else []
  }

  /**
   * The timer is renewed exactly when some entry is strictly overdue. A timer that fires no later than
   * every deadline sends nothing and changes nothing, so it leaves no timer pending.
   */
  lemma TimerRenewedIffOverdue(fe: State, at: Time)
    ensures RENEW_TIMER in TimerEvents(fe, at) <==> exists e :: e in fe.onGoing && Overdue(e, at)
    ensures (forall e :: e in fe.onGoing ==> !Overdue(e, at)) ==> TimerEvents(fe, at) == [] && Elapse(fe, at) == fe
  {
    ResendEventsMembers(fe.onGoing, at);
    if e :| e in fe.onGoing && Overdue(e, at) {
      assert ToRegister(e) in ResendEvents(fe.onGoing, at);
    } else {
      assert Resend(fe.onGoing, at) == fe.onGoing;
    }
  }
}
