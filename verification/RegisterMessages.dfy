/** The messages, addresses and bookkeeping records of the replicated register. */
module RegisterMessages {
  type SessionId = nat
  type ClientId = nat
  type Time = int  // nanoseconds

  datatype Address = Register1 | Register2 | FrontEnd | Client(id: ClientId)

  datatype Request = Read | Write(value: int)

  datatype Response = Value(values: seq<int>) | Ack

  datatype Args =
    | InternalRequest(id: SessionId, request: Request)
    | InternalResponse(id: SessionId, response: Response)
    | ClientResponse(clientId: ClientId, reply: Response)
    | Timer(duration: Time)

  datatype OutEvent = OutEvent(to: Address, args: Args)

  /** An internal request that a frontend keeps until the register has responded. */
  datatype OnGoing = OnGoing(register: Address, request: Request, sessionId: SessionId, at: Time, numberOfTries: nat)

  const RESEND_TIMER: Time := 5_000_000_000

  const RENEW_TIMER := OutEvent(FrontEnd, Timer(RESEND_TIMER))

  predicate IsRegister(a: Address) {
    a.Register1? || a.Register2?
  }

  function Other(r: Address): Address
    requires IsRegister(r)
  {
    if r.Register1? then Register2 else Register1
  }

  /** Strictly later than the resend deadline, as Go's `Time.After` demands. */
  predicate Overdue(e: OnGoing, at: Time) {
    at > e.at + RESEND_TIMER
  }

  function ToRegister(e: OnGoing): OutEvent {
    OutEvent(e.register, InternalRequest(e.sessionId, e.request))
  }

  function ToClient(client: ClientId, reply: Response): OutEvent {
    OutEvent(Client(client), ClientResponse(client, reply))
  }
}
