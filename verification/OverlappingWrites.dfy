/** Overlapping writes may land in opposite orders, and then the registers disagree for ever. */
module OverlappingWrites {
  import opened RegisterMessages
  import opened RegisterProtocol
  import opened RegisterProgress
  import RegisterGuarantees
  import SequentialRefinement
  import FE = FrontEndState
  import R = RegisterReactor

  /** A write in flight that register `r` has not applied. */
  ghost predicate Unapplied(sys: System, r: Address, s: SessionId)
    requires IsRegister(r)
  {
    s in sys.fe.inFlight && s < |Ops(sys.history)| && Ops(sys.history)[s].request.Write? && s !in sys.Reg(r).sessions
  }

  function RequestOf(sys: System, r: Address, s: SessionId): Packet
    requires s < |Ops(sys.history)|
  {
    Packet(FrontEnd, r, InternalRequest(s, Ops(sys.history)[s].request))
  }

  // ---- A late timer sends every unapplied write again ----

  lemma EntryOfUnapplied(sys: System, r: Address, s: SessionId) returns (e: OnGoing)
    requires Inv(sys) && IsRegister(r) && Unapplied(sys, r, s)
    ensures e in sys.fe.onGoing && e.register == r && e.sessionId == s && e.request == Ops(sys.history)[s].request
  {
    var es := sys.fe.onGoing;
    assert s in FE.Waiting(es, r);
    var i :| 0 <= i < |es| && es[i].register == r && es[i].sessionId == s;
    assert EntryOk(Ops(sys.history), es[i]);
    e := es[i];
  }

  lemma ResendsUnapplied(sys: System, r: Address, s: SessionId, now: Time)
    requires Inv(sys) && IsRegister(r) && Unapplied(sys, r, s)
    requires forall e :: e in sys.fe.onGoing ==> Overdue(e, now)
    ensures RequestOf(sys, r, s) in Run(sys, [FireTimer(now)]).net
  {
    var e := EntryOfUnapplied(sys, r, s);
    FireSends(sys, e, now);
    RunOne(sys, FireTimer(now));
  }

  lemma FireOnlySends(sys: System, now: Time)
    ensures
      var sys' := Run(sys, [FireTimer(now)]);
      sys'.register1 == sys.register1 && sys'.register2 == sys.register2 && sys'.history == sys.history
  {
    RunOne(sys, FireTimer(now));
  }

  // ---- Two deliveries to one register ----

  lemma DeliverNext(sys: System, steps: seq<Step>, p: Packet)
    requires p in Run(sys, steps).net && IsRegister(p.to) && p.args.InternalRequest?
    ensures
      var sys1, sys2 := Run(sys, steps), Run(sys, steps + [Deliver(p)]);
      && sys2.Reg(p.to) == R.Handle(sys1.Reg(p.to), p.args.id, p.args.request)
      && sys2.Reg(Other(p.to)) == sys1.Reg(Other(p.to))
      && sys2.fe == sys1.fe && sys2.history == sys1.history
      && forall q :: q in sys1.net && q != p ==> q in sys2.net
  {
    RunSnoc(sys, steps, Deliver(p));
  }

  lemma HandleTwoWrites(reg: R.State, s: SessionId, x: int, t: SessionId, y: int)
    requires s != t && s !in reg.sessions && t !in reg.sessions
    ensures R.Handle(R.Handle(reg, s, Write(x)), t, Write(y))
         == R.State(reg.value + [x, y], reg.sessions + [s, t])
  {
    assert reg.value + [x] + [y] == reg.value + [x, y] && reg.sessions + [s] + [t] == reg.sessions + [s, t];
  }

  function WriteRequest(r: Address, s: SessionId, x: int): Packet {
    Packet(FrontEnd, r, InternalRequest(s, Write(x)))
  }

  lemma DeliverTwo(sys: System, steps: seq<Step>, r: Address, s: SessionId, x: int, t: SessionId, y: int)
    returns (more: seq<Step>)
    requires IsRegister(r) && s != t && CallFree(steps)
    requires WriteRequest(r, s, x) in Run(sys, steps).net && WriteRequest(r, t, y) in Run(sys, steps).net
    requires s !in Run(sys, steps).Reg(r).sessions && t !in Run(sys, steps).Reg(r).sessions
    ensures CallFree(more)
    ensures
      var sys1, sys2 := Run(sys, steps), Run(sys, more);
      && sys2.Reg(r) == R.State(sys1.Reg(r).value + [x, y], sys1.Reg(r).sessions + [s, t])
      && sys2.Reg(Other(r)) == sys1.Reg(Other(r))
      && sys2.fe == sys1.fe && sys2.history == sys1.history
      && forall q :: q in sys1.net && q.to != r ==> q in sys2.net
  {
    HandleTwoWrites(Run(sys, steps).Reg(r), s, x, t, y);
    DeliverNext(sys, steps, WriteRequest(r, s, x));
    var once := steps + [Deliver(WriteRequest(r, s, x))];
    DeliverNext(sys, once, WriteRequest(r, t, y));
    more := once + [Deliver(WriteRequest(r, t, y))];
    CallFreeSnoc(steps, Deliver(WriteRequest(r, s, x)));
    CallFreeSnoc(once, Deliver(WriteRequest(r, t, y)));
  }

  // ---- Opposite orders, for ever ----

  ghost predicate TwoUnapplied(sys: System, s: SessionId, t: SessionId) {
    && s != t
    && Unapplied(sys, Register1, s) && Unapplied(sys, Register2, s)
    && Unapplied(sys, Register1, t) && Unapplied(sys, Register2, t)
  }

  /** Register 1 has s before t on top of what it had, and register 2 has t before s. */
  predicate Opposite(old1: R.State, old2: R.State, sys: System, s: SessionId, x: int, t: SessionId, y: int) {
    && old1.sessions + [s, t] <= sys.register1.sessions && old1.value + [x, y] <= sys.register1.value
    && old2.sessions + [t, s] <= sys.register2.sessions && old2.value + [y, x] <= sys.register2.value
  }

  lemma OppositeOrders(sys: System, s: SessionId, x: int, t: SessionId, y: int) returns (more: seq<Step>)
    requires Inv(sys) && TwoUnapplied(sys, s, t)
    requires Ops(sys.history)[s].request == Write(x) && Ops(sys.history)[t].request == Write(y)
    ensures Opposite(sys.register1, sys.register2, Run(sys, more), s, x, t, y)
    ensures Run(sys, more).history == sys.history && CallFree(more)
  {
    var now := LateEnough(sys.fe.onGoing, 0);
    ResendsUnapplied(sys, Register1, s, now);
    ResendsUnapplied(sys, Register1, t, now);
    ResendsUnapplied(sys, Register2, s, now);
    ResendsUnapplied(sys, Register2, t, now);
    FireOnlySends(sys, now);
    more := DeliverTwo(sys, [FireTimer(now)], Register1, s, x, t, y);
    more := DeliverTwo(sys, more, Register2, t, y, s, x);
  }

  lemma OppositeStays(old1: R.State, old2: R.State, sys: System, first: seq<Step>, rest: seq<Step>,
                      s: SessionId, x: int, t: SessionId, y: int)
    requires Opposite(old1, old2, Run(sys, first), s, x, t, y)
    ensures Opposite(old1, old2, Run(sys, first + rest), s, x, t, y)
  {
    RunAppend(sys, first, rest);
    RegisterGuarantees.RegistersGrow(Run(sys, first), rest);
  }

  lemma OppositeForEver(old1: R.State, old2: R.State, sys: System, first: seq<Step>, s: SessionId, x: int, t: SessionId, y: int)
    requires Opposite(old1, old2, Run(sys, first), s, x, t, y)
    ensures forall rest :: Opposite(old1, old2, Run(sys, first + rest), s, x, t, y)
  {
    forall rest
      ensures Opposite(old1, old2, Run(sys, first + rest), s, x, t, y)
    {
      OppositeStays(old1, old2, sys, first, rest, s, x, t, y);
    }
  }

  lemma DrainedIsAcked(sys: System, sys': System, s: SessionId)
    requires Inv(sys') && sys'.fe.onGoing == [] && sys.history <= sys'.history
    requires s < |Ops(sys.history)| && Ops(sys.history)[s].request.Write?
    ensures s in Acked(sys'.history)
  {
    IdleIsAnswered(sys');
    RegisterGuarantees.OpsPrefix(sys'.history, |sys.history|);
    assert sys'.history[..|sys.history|] == sys.history;
    SequentialRefinement.AnsweredWritesAreAcked(sys', s);
  }

  /** Drains after `first`, which left the history alone: everything is answered. */
  lemma DrainAfter(sys: System, first: seq<Step>) returns (drain: seq<Step>)
    requires Inv(sys) && Run(sys, first).history == sys.history && CallFree(first)
    ensures CallFree(first + drain)
    ensures
      var sys' := Run(sys, first + drain);
      Inv(sys') && sys'.fe.onGoing == [] && sys.history <= sys'.history
  {
    RunInv(sys, first);
    drain := Drain(Run(sys, first), 0);
    QuietAppend(first, drain, 0);
    RunAppend(sys, first, drain);
    RunInv(sys, first + drain);
    RegisterGuarantees.RegistersGrow(Run(sys, first), drain);
  }

  /**
   * From every state that satisfies the invariant and has two writes in flight that no register has applied,
   * some continuation acknowledges both and leaves the registers in opposite orders whatever happens next.
   */
  lemma OverlapMayDisagreeForEver(sys: System, s: SessionId, x: int, t: SessionId, y: int) returns (more: seq<Step>)
    requires Inv(sys) && TwoUnapplied(sys, s, t)
    requires Ops(sys.history)[s].request == Write(x) && Ops(sys.history)[t].request == Write(y)
    ensures CallFree(more) && {s, t} <= Acked(Run(sys, more).history) && Run(sys, more).fe.inFlight == map[]
    ensures forall rest :: Opposite(sys.register1, sys.register2, Run(sys, more + rest), s, x, t, y)
  {
    var first := OppositeOrders(sys, s, x, t, y);
    var drain := DrainAfter(sys, first);
    more := first + drain;
    IdleIsAnswered(Run(sys, more));
    DrainedIsAcked(sys, Run(sys, more), s);
    DrainedIsAcked(sys, Run(sys, more), t);
    OppositeStays(sys.register1, sys.register2, sys, first, drain, s, x, t, y);
    OppositeForEver(sys.register1, sys.register2, sys, more, s, x, t, y);
  }

  /** The same from every reachable state. */
  lemma RegistersMayDisagreeForEver(steps: seq<Step>, sys: System, s: SessionId, x: int, t: SessionId, y: int)
    returns (more: seq<Step>)
    requires sys == Run(Start, steps) && TwoUnapplied(sys, s, t)
    requires Ops(sys.history)[s].request == Write(x) && Ops(sys.history)[t].request == Write(y)
    ensures {s, t} <= Acked(Run(sys, more).history)
    ensures forall rest :: Opposite(sys.register1, sys.register2, Run(sys, more + rest), s, x, t, y)
  {
    RunKeeps(steps);
    more := OverlapMayDisagreeForEver(sys, s, x, t, y);
  }

  // ---- After any past two overlapping writes lead there ----

  lemma CallIsUnapplied(sys: System, at: Time, client: ClientId, x: int)
    requires Inv(sys)
    ensures
      var sys' := Call(sys, at, client, Write(x));
      var s := sys.fe.nextSessionId;
      && Unapplied(sys', Register1, s) && Unapplied(sys', Register2, s)
      && Ops(sys'.history)[s].request == Write(x) && sys'.fe.nextSessionId == s + 1
  {
    Extend(sys.history, Invoked(sys.fe.nextSessionId, client, Write(x)));
    NotYetHeld(Ops(sys.history), sys.register1);
    NotYetHeld(Ops(sys.history), sys.register2);
  }

  lemma NotYetHeld(ops: seq<Op>, reg: R.State)
    requires RegisterOk(ops, reg)
    ensures |ops| !in reg.sessions
  {
  }

  lemma CallKeepsUnapplied(sys: System, r: Address, s: SessionId, at: Time, client: ClientId, request: Request)
    requires Inv(sys) && IsRegister(r) && Unapplied(sys, r, s)
    ensures Unapplied(Call(sys, at, client, request), r, s)
    ensures Ops(Call(sys, at, client, request).history)[s] == Ops(sys.history)[s]
  {
    Extend(sys.history, Invoked(sys.fe.nextSessionId, client, request));
  }

  lemma TwoCalls(sys: System, at: Time, c: ClientId, x: int, d: ClientId, y: int) returns (twice: System)
    requires Inv(sys)
    ensures twice == Call(Call(sys, at, c, Write(x)), at, d, Write(y)) && Inv(twice)
    ensures TwoUnapplied(twice, sys.fe.nextSessionId, sys.fe.nextSessionId + 1)
    ensures Ops(twice.history)[sys.fe.nextSessionId].request == Write(x)
    ensures Ops(twice.history)[sys.fe.nextSessionId + 1].request == Write(y)
  {
    var once := Call(sys, at, c, Write(x));
    twice := Call(once, at, d, Write(y));
    CallKeeps(sys, at, c, Write(x));
    CallKeeps(once, at, d, Write(y));
    CallIsUnapplied(sys, at, c, x);
    CallIsUnapplied(once, at, d, y);
    CallKeepsUnapplied(once, Register1, sys.fe.nextSessionId, at, d, Write(y));
    CallKeepsUnapplied(once, Register2, sys.fe.nextSessionId, at, d, Write(y));
  }

  /** After any past, two clients that write at the same time can bring this about. */
  lemma OverlappingWritesMayDisagree(steps: seq<Step>, sys: System, at: Time, c: ClientId, x: int, d: ClientId, y: int)
    returns (twice: System, more: seq<Step>)
    requires sys == Run(Start, steps)
    ensures twice == Apply(Apply(sys, CallClient(at, c, Write(x))), CallClient(at, d, Write(y)))
    ensures {sys.fe.nextSessionId, sys.fe.nextSessionId + 1} <= Acked(Run(twice, more).history)
    ensures forall rest ::
      Opposite(twice.register1, twice.register2, Run(twice, more + rest), sys.fe.nextSessionId, x, sys.fe.nextSessionId + 1, y)
  {
    RunKeeps(steps);
    twice := TwoCalls(sys, at, c, x, d, y);
    more := OverlapMayDisagreeForEver(twice, sys.fe.nextSessionId, x, sys.fe.nextSessionId + 1, y);
  }
}
