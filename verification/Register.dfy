/** One replica: an append-only list, deduplicated by session id. */
module RegisterReactor {
  import opened RegisterMessages

  datatype State = State(value: seq<int>, sessions: seq<SessionId>)

  const Initial := State([], [])

  function Handle(r: State, id: SessionId, request: Request): State {
    if request.Read? || id in r.sessions then r else State(r.value + [request.value], r.sessions + [id])
  }

  function Answer(r: State, request: Request): Response {
    if request.Read? then Value(r.value) else Ack
  }

  class Register {
    var value: seq<int>
    var sessions: seq<SessionId>

    ghost function Model(): State
      reads this
    {
      State(value, sessions)
    }

    constructor ()
      ensures Model() == Initial
    {
      value, sessions := [], [];
    }

    method Receive(from: Address, id: SessionId, request: Request) returns (outs: seq<OutEvent>)
      modifies this
      ensures Model() == Handle(old(Model()), id, request)
      ensures outs == [OutEvent(from, InternalResponse(id, Answer(old(Model()), request)))]
    {
      match request
      case Read =>
        outs := [OutEvent(from, InternalResponse(id, Value(value)))];
      case Write(x) =>
        var found := false;
        for i := 0 to |sessions|
          invariant !found && id !in sessions[..i]
        {
          if sessions[i] == id {
            found := true;
            break;
          }
        }
        if !found {
          value := value + [x];
          sessions := sessions + [id];
        }
        outs := [OutEvent(from, InternalResponse(id, Ack))];
    }
  }

  // ---- What a single replica keeps, whatever it is sent ----

  ghost predicate Distinct(s: seq<SessionId>) {
    forall i, j :: 0 <= i < j < |s| ==> s[i] != s[j]
  }

  ghost predicate Matched(r: State) {
    |r.value| == |r.sessions| && Distinct(r.sessions)
  }

  predicate Grows(r: State, r': State) {
    r.value <= r'.value && r.sessions <= r'.sessions
  }

  lemma HandleKeeps(r: State, id: SessionId, request: Request)
    requires Matched(r)
    ensures Matched(Handle(r, id, request)) && Grows(r, Handle(r, id, request))
  {
  }

  /** Redelivering a request changes nothing: a duplicated write is applied once. */
  lemma HandleTwice(r: State, id: SessionId, request: Request)
    ensures Handle(Handle(r, id, request), id, request) == Handle(r, id, request)
  {
  }
}
