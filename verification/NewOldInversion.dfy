/** Reads that overlap a write can be answered by the register that is ahead, and then by the one behind. */
module NewOldInversion {
  import opened RegisterMessages
  import opened RegisterProtocol
  import opened RegisterProgress
  import opened Linearizability
  import OverlappingWrites
  import RegisterAgreement
  import FE = FrontEndState

  // ---- A read that is answered by a given register ----

  /** The frontend answers when the second register has responded, with that response. */
  lemma LastResponderAnswers(fe: FE.State, at: Time, client: ClientId, r: Address)
    requires FE.Consistent(fe) && IsRegister(r)
    ensures
      var a := fe.nextSessionId;
      var called := FE.Open(fe, at, client, Read);
      var half := FE.Settle(called, Other(r), a);
      && !FE.Completes(called, Other(r), a)
      && FE.Completes(half, r, a) && a in half.inFlight && half.inFlight[a] == client
  {
    var a := fe.nextSessionId;
    var called := FE.Open(fe, at, client, Read);
    var half := FE.Settle(called, Other(r), a);
    FE.OpenConsistent(fe, at, client, Read);
    FE.OpenWaiting(fe, at, client, Read, Register1);
    FE.OpenWaiting(fe, at, client, Read, Register2);
    FE.CompletesIff(called, Other(r), a);
    FE.SettleWaiting(called, Other(r), a);
    FE.SettleConsistent(called, Other(r), a);
    FE.CompletesIff(half, r, a);
  }

  function ReadRequest(r: Address, a: SessionId): Packet {
    Packet(FrontEnd, r, InternalRequest(a, Read))
  }

  function ReadResponse(r: Address, a: SessionId, values: seq<int>): Packet {
    Packet(r, FrontEnd, InternalResponse(a, Value(values)))
  }

  lemma CallSends(sys: System, at: Time, client: ClientId, r: Address)
    requires IsRegister(r)
    ensures ReadRequest(r, sys.fe.nextSessionId) in Call(sys, at, client, Read).net
  {
    var outs := FE.OpenEvents(sys.fe.nextSessionId, Read);
    PacketsMembers(FrontEnd, outs);
    assert OutEvent(r, InternalRequest(sys.fe.nextSessionId, Read)) == outs[if r.Register1? then 0 else 1];
  }

  lemma ServeRead(sys: System, r: Address, a: SessionId)
    requires IsRegister(r) && ReadRequest(r, a) in sys.net
    ensures
      var sys' := Apply(sys, Deliver(ReadRequest(r, a)));
      && sys'.fe == sys.fe && sys'.history == sys.history
      && sys'.register1 == sys.register1 && sys'.register2 == sys.register2
      && ReadResponse(r, a, sys.Reg(r).value) in sys'.net
      && forall p :: p in sys.net && p != ReadRequest(r, a) ==> p in sys'.net
  {
  }

  lemma CollectRead(sys: System, r: Address, a: SessionId, values: seq<int>)
    requires ReadResponse(r, a, values) in sys.net
    ensures
      var sys' := Apply(sys, Deliver(ReadResponse(r, a, values)));
      && sys'.fe == FE.Settle(sys.fe, r, a)
      && sys'.register1 == sys.register1 && sys'.register2 == sys.register2
      && sys'.history == sys.history
         + (if FE.Completes(sys.fe, r, a) then [Replied(a, sys.fe.inFlight[a], Value(values))] else [])
      && forall p :: p in sys.net && p != ReadResponse(r, a, values) ==> p in sys'.net
  {
  }

  /** Serves and collects one response. */
  lemma OneResponse(sys: System, steps: seq<Step>, r: Address, a: SessionId) returns (more: seq<Step>)
    requires IsRegister(r) && ReadRequest(r, a) in Run(sys, steps).net && OnlyReads(steps)
    ensures OnlyReads(more)
    ensures
      var sys1, sys2 := Run(sys, steps), Run(sys, more);
      && sys2.fe == FE.Settle(sys1.fe, r, a)
      && sys2.register1 == sys1.register1 && sys2.register2 == sys1.register2
      && sys2.history == sys1.history
         + (if FE.Completes(sys1.fe, r, a) then [Replied(a, sys1.fe.inFlight[a], Value(sys1.Reg(r).value))] else [])
      && forall p :: p in sys1.net && p.to.Register1? != r.Register1? && IsRegister(p.to) ==> p in sys2.net
  {
    var sys1 := Run(sys, steps);
    ServeRead(sys1, r, a);
    var served := steps + [Deliver(ReadRequest(r, a))];
    RunSnoc(sys, steps, Deliver(ReadRequest(r, a)));
    CollectRead(Run(sys, served), r, a, sys1.Reg(r).value);
    more := served + [Deliver(ReadResponse(r, a, sys1.Reg(r).value))];
    RunSnoc(sys, served, Deliver(ReadResponse(r, a, sys1.Reg(r).value)));
    OnlyReadsSnoc(steps, Deliver(ReadRequest(r, a)));
    OnlyReadsSnoc(served, Deliver(ReadResponse(r, a, sys1.Reg(r).value)));
  }

  /** From any state a new read can be answered by the register of one's choice. */
  lemma ReadAnsweredBy(sys: System, at: Time, client: ClientId, r: Address) returns (steps: seq<Step>)
    requires FE.Consistent(sys.fe) && IsRegister(r)
    ensures OnlyReads(steps)
    ensures
      var a := sys.fe.nextSessionId;
      var sys' := Run(sys, steps);
      && sys'.register1 == sys.register1 && sys'.register2 == sys.register2
      && sys'.history == sys.history + [Invoked(a, client, Read)] + [Replied(a, client, Value(sys.Reg(r).value))]
  {
    var a, call := sys.fe.nextSessionId, CallClient(at, client, Read);
    LastResponderAnswers(sys.fe, at, client, r);
    CallSends(sys, at, client, r);
    CallSends(sys, at, client, Other(r));
    RunSnoc(sys, [], call);
    OnlyReadsSnoc([], call);
    assert Run(sys, [] + [call]) == Call(sys, at, client, Read);
    var half := OneResponse(sys, [] + [call], Other(r), a);
    steps := OneResponse(sys, half, r, a);
  }

  // ---- The inversion ----

  /** One register applies the pending write, the other one does not. */
  lemma ApplyToFirst(sys: System, w: SessionId, x: int) returns (steps: seq<Step>)
    requires Inv(sys) && OverlappingWrites.Unapplied(sys, Register1, w) && Ops(sys.history)[w].request == Write(x)
    ensures
      var sys' := Run(sys, steps);
      && sys'.register1.value == sys.register1.value + [x] && sys'.register2 == sys.register2
      && sys'.history == sys.history && OnlyReads(steps)
  {
    var now := LateEnough(sys.fe.onGoing, 0);
    OverlappingWrites.ResendsUnapplied(sys, Register1, w, now);
    OverlappingWrites.FireOnlySends(sys, now);
    var request := OverlappingWrites.RequestOf(sys, Register1, w);
    OverlappingWrites.DeliverNext(sys, [FireTimer(now)], request);
    steps := [FireTimer(now)] + [Deliver(request)];
    OnlyReadsSnoc([FireTimer(now)], Deliver(request));
  }

  lemma TwoReadsInvert(h: seq<Event>, a: SessionId, c: ClientId, v: seq<int>, b: SessionId, d: ClientId, u: seq<int>)
    requires !(v <= u)
    ensures !Linearizable(h + [Invoked(a, c, Read)] + [Replied(a, c, Value(v))]
                            + [Invoked(b, d, Read)] + [Replied(b, d, Value(u))])
  {
    var n := |h|;
    var h' := h + [Invoked(a, c, Read)] + [Replied(a, c, Value(v))] + [Invoked(b, d, Read)] + [Replied(b, d, Value(u))];
    assert h'[n + 1] == Replied(a, c, Value(v)) && h'[n + 2] == Invoked(b, d, Read)
      && h'[n + 3] == Replied(b, d, Value(u));
    InversionIsNotLinearizable(h', n + 1, n + 2, n + 3);
  }

  /** Two reads in turn, the first answered by register 1 and the second by register 2. */
  lemma ReadBoth(sys: System, at: Time, c: ClientId, d: ClientId) returns (steps: seq<Step>)
    requires Inv(sys) && !(sys.register1.value <= sys.register2.value)
    ensures !Linearizable(Run(sys, steps).history) && OnlyReads(steps)
  {
    InvConsistent(sys);
    var first := ReadAnsweredBy(sys, at, c, Register1);
    RunInv(sys, first);
    var middle := Run(sys, first);
    InvConsistent(middle);
    var second := ReadAnsweredBy(middle, at, d, Register2);
    steps := first + second;
    RunAppend(sys, first, second);
    OnlyReadsAppend(first, second);
    TwoReadsInvert(sys.history, sys.fe.nextSessionId, c, sys.register1.value,
                   middle.fe.nextSessionId, d, sys.register2.value);
  }

  /** Whenever a write is pending that no register has applied, two reads in turn can be answered in the wrong order. */
  lemma PendingWriteMayInvert(steps: seq<Step>, sys: System, w: SessionId, at: Time, c: ClientId, d: ClientId)
    returns (more: seq<Step>)
    requires sys == Run(Start, steps) && sys.register1.value == sys.register2.value
    requires OverlappingWrites.Unapplied(sys, Register1, w) && OverlappingWrites.Unapplied(sys, Register2, w)
    ensures !Linearizable(Run(sys, more).history) && OnlyReads(more)
  {
    RunKeeps(steps);
    var ahead := ApplyToFirst(sys, w, Ops(sys.history)[w].request.value);
    RunInv(sys, ahead);
    var both := ReadBoth(Run(sys, ahead), at, c, d);
    more := ahead + both;
    RunAppend(sys, ahead, both);
    OnlyReadsAppend(ahead, both);
  }

  /** So after any past in which writes did not overlap, one more write and two reads during it suffice. */
  lemma ReadsDuringWriteMayInvert(steps: seq<Step>, sys: System, call: Step, at: Time, c: ClientId, d: ClientId)
    returns (more: seq<Step>)
    requires RegisterAgreement.WritesDoNotOverlap(steps) && sys == Run(Start, steps)
    requires RegisterAgreement.NoPendingWrite(Ops(sys.history), sys.fe.inFlight.Keys)
    requires call.CallClient? && call.request.Write?
    ensures !Linearizable(Run(Apply(sys, call), more).history) && OnlyReads(more)
  {
    RunKeeps(steps);
    RegisterAgreement.RegistersAgree(steps, sys);
    RunSnoc(Start, steps, call);
    OverlappingWrites.CallIsUnapplied(sys, call.at, call.client, call.request.value);
    more := PendingWriteMayInvert(steps + [call], Apply(sys, call), sys.fe.nextSessionId, at, c, d);
  }
}
