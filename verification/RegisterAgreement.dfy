/**
 * If writes do not overlap, each register holds the writes in the order in which they were issued, all of them
 * but perhaps the pending one.
 */
module RegisterAgreement {
  import opened RegisterMessages
  import opened RegisterProtocol
  import SequentialRefinement
  import FE = FrontEndState
  import R = RegisterReactor

  ghost predicate PendingWrite(ops: seq<Op>, inFlight: set<SessionId>, w: SessionId) {
    w in inFlight && w < |ops| && ops[w].request.Write?
  }

  ghost predicate NoPendingWrite(ops: seq<Op>, inFlight: set<SessionId>) {
    forall w :: !PendingWrite(ops, inFlight, w)
  }

  /** No write is issued while another write is in flight; reads may overlap anything. */
  ghost predicate WritesDoNotOverlap(steps: seq<Step>) {
    steps != [] ==>
      var front, step := steps[..|steps| - 1], steps[|steps| - 1];
      && WritesDoNotOverlap(front)
      && (step.CallClient? && step.request.Write? ==>
            var sys := Run(Start, front);
            NoPendingWrite(Ops(sys.history), sys.fe.inFlight.Keys))
  }

  // ---- The writes in the order in which they were issued ----

  function Writes(ops: seq<Op>): seq<SessionId> {
    if ops == [] then []
    else Writes(ops[..|ops| - 1]) + if ops[|ops| - 1].request.Write? then [|ops| - 1] else []
  }

  lemma WritesSnoc(ops: seq<Op>, op: Op)
    ensures Writes(ops + [op]) == Writes(ops) + if op.request.Write? then [|ops|] else []
  {
    assert (ops + [op])[..|ops|] == ops;
  }

  lemma {:induction false} WritesMembers(ops: seq<Op>)
    ensures forall s: SessionId :: s in Writes(ops) <==> s < |ops| && ops[s].request.Write?
  {
    if ops != [] {
      WritesMembers(ops[..|ops| - 1]);
    }
  }

  lemma {:induction false} WritesAreDistinct(ops: seq<Op>)
    ensures R.Distinct(Writes(ops))
  {
    if ops != [] {
      WritesAreDistinct(ops[..|ops| - 1]);
      WritesMembers(ops[..|ops| - 1]);
      var front := Writes(ops[..|ops| - 1]);
      forall i | 0 <= i < |front|
        ensures front[i] != |ops| - 1
      {
        assert front[i] in front;
      }
    }
  }

  // ---- The invariant ----

  ghost predicate PendingIsLast(ops: seq<Op>, inFlight: set<SessionId>) {
    forall w :: PendingWrite(ops, inFlight, w) ==> Writes(ops) != [] && w == Writes(ops)[|Writes(ops)| - 1]
  }

  /** The register holds all writes in order, but perhaps the pending one. */
  ghost predicate Tracks(ops: seq<Op>, inFlight: set<SessionId>, reg: R.State) {
    || reg.sessions == Writes(ops)
    || exists w :: PendingWrite(ops, inFlight, w) && Writes(ops) == reg.sessions + [w]
  }

  ghost predicate InOrder(ops: seq<Op>, inFlight: set<SessionId>, reg1: R.State, reg2: R.State) {
    PendingIsLast(ops, inFlight) && Tracks(ops, inFlight, reg1) && Tracks(ops, inFlight, reg2)
  }

  ghost predicate SystemInOrder(sys: System) {
    InOrder(Ops(sys.history), sys.fe.inFlight.Keys, sys.register1, sys.register2)
  }

  lemma PendingAfterCall(ops: seq<Op>, op: Op, inFlight: set<SessionId>)
    requires PendingIsLast(ops, inFlight) && forall s :: s in inFlight ==> s < |ops|
    requires op.request.Write? ==> NoPendingWrite(ops, inFlight)
    ensures PendingIsLast(ops + [op], inFlight + {|ops|})
    ensures forall w :: PendingWrite(ops, inFlight, w) ==> PendingWrite(ops + [op], inFlight + {|ops|}, w)
    ensures op.request.Write? ==> PendingWrite(ops + [op], inFlight + {|ops|}, |ops|)
  {
    WritesSnoc(ops, op);
    forall w: SessionId | PendingWrite(ops + [op], inFlight + {|ops|}, w)
      ensures Writes(ops + [op]) != [] && w == Writes(ops + [op])[|Writes(ops + [op])| - 1]
    {
      assert w < |ops| ==> PendingWrite(ops, inFlight, w);
    }
  }

  lemma CallTracks(ops: seq<Op>, op: Op, inFlight: set<SessionId>, reg: R.State)
    requires Tracks(ops, inFlight, reg) && PendingIsLast(ops, inFlight) && forall s :: s in inFlight ==> s < |ops|
    requires op.request.Write? ==> NoPendingWrite(ops, inFlight)
    ensures Tracks(ops + [op], inFlight + {|ops|}, reg)
  {
    WritesSnoc(ops, op);
    PendingAfterCall(ops, op, inFlight);
  }

  lemma HandleTracks(ops: seq<Op>, inFlight: set<SessionId>, reg: R.State, id: SessionId, request: Request)
    requires PendingIsLast(ops, inFlight) && Tracks(ops, inFlight, reg)
    requires R.Handle(reg, id, request) != reg ==> PendingWrite(ops, inFlight, id)
    ensures Tracks(ops, inFlight, R.Handle(reg, id, request))
  {
    if R.Handle(reg, id, request) != reg {
      assert reg.sessions != Writes(ops) by {
        assert Writes(ops)[|Writes(ops)| - 1] == id;
      }
      var w: SessionId :| PendingWrite(ops, inFlight, w) && Writes(ops) == reg.sessions + [w];
      assert w == id;
    }
  }

  lemma ServeInOrder(sys: System, r: Address, client: Address, id: SessionId, request: Request)
    requires Inv(sys) && SystemInOrder(sys) && IsRegister(r)
    requires id < |Ops(sys.history)| && request == Ops(sys.history)[id].request
    ensures SystemInOrder(Serve(sys, r, client, id, request))
  {
    SequentialRefinement.ServeChanges(sys, r, id, request);
    HandleTracks(Ops(sys.history), sys.fe.inFlight.Keys, sys.Reg(r), id, request);
  }

  lemma LastIsNew(front: seq<SessionId>, w: SessionId)
    requires R.Distinct(front + [w])
    ensures w !in front
  {
    assert (front + [w])[|front|] == w;
    assert forall i :: 0 <= i < |front| ==> (front + [w])[i] == front[i];
  }

  /** A write that both registers hold may leave, and so may a read. */
  lemma AnswerTracks(ops: seq<Op>, inFlight: set<SessionId>, reg: R.State, id: SessionId)
    requires PendingIsLast(ops, inFlight) && Tracks(ops, inFlight, reg)
    requires PendingWrite(ops, inFlight, id) ==> id in reg.sessions
    ensures PendingIsLast(ops, inFlight - {id}) && Tracks(ops, inFlight - {id}, reg)
  {
    WritesAreDistinct(ops);
    forall w: SessionId | PendingWrite(ops, inFlight - {id}, w)
      ensures PendingWrite(ops, inFlight, w)
    {
    }
    if reg.sessions != Writes(ops) {
      var w: SessionId :| PendingWrite(ops, inFlight, w) && Writes(ops) == reg.sessions + [w];
      LastIsNew(reg.sessions, w);
      assert PendingWrite(ops, inFlight - {id}, w);
    }
  }

  lemma CollectInOrder(sys: System, from: Address, id: SessionId, response: Response)
    requires Inv(sys) && SystemInOrder(sys) && IsRegister(from) && id < |Ops(sys.history)|
    requires ResponseOk(Ops(sys.history)[id], id, sys.Reg(from), response)
    ensures SystemInOrder(Collect(sys, from, id, response))
  {
    var h, ops := sys.history, Ops(sys.history);
    FE.SettleWaiting(sys.fe, from, id);
    if FE.Completes(sys.fe, from, id) {
      CollectReply(sys, from, id, response);
      if ops[id].request.Write? {
        AckedByBoth(ops, sys.fe, sys.register1, sys.register2, Answered(h), from, id);
      }
      AnswerTracks(ops, sys.fe.inFlight.Keys, sys.register1, id);
      AnswerTracks(ops, sys.fe.inFlight.Keys, sys.register2, id);
      assert (sys.fe.inFlight - {id}).Keys == sys.fe.inFlight.Keys - {id};
    }
  }

  lemma SessionBounds(sys: System)
    requires Inv(sys)
    ensures |Ops(sys.history)| == sys.fe.nextSessionId && forall s :: s in sys.fe.inFlight ==> s < |Ops(sys.history)|
  {
  }

  lemma CallInOrder(sys: System, at: Time, client: ClientId, request: Request)
    requires |Ops(sys.history)| == sys.fe.nextSessionId && forall s :: s in sys.fe.inFlight ==> s < |Ops(sys.history)|
    requires SystemInOrder(sys)
    requires request.Write? ==> NoPendingWrite(Ops(sys.history), sys.fe.inFlight.Keys)
    ensures SystemInOrder(Call(sys, at, client, request))
  {
    var h, s := sys.history, sys.fe.nextSessionId;
    var op := Op(client, request, Acked(h));
    Extend(h, Invoked(s, client, request));
    PendingAfterCall(Ops(h), op, sys.fe.inFlight.Keys);
    CallTracks(Ops(h), op, sys.fe.inFlight.Keys, sys.register1);
    CallTracks(Ops(h), op, sys.fe.inFlight.Keys, sys.register2);
    assert sys.fe.inFlight[s := client].Keys == sys.fe.inFlight.Keys + {s};
  }

  lemma DeliverInOrder(sys: System, p: Packet)
    requires Inv(sys) && SystemInOrder(sys) && p in sys.net
    ensures SystemInOrder(Apply(sys, Deliver(p)))
  {
    var rest := sys.(net := sys.net - multiset{p});
    StepKeeps(sys, Drop(p));
    assert PacketOk(Ops(sys.history), sys.register1, sys.register2, p);
    if p.args.InternalRequest? {
      ServeInOrder(rest, p.to, p.from, p.args.id, p.args.request);
    } else {
      CollectInOrder(rest, p.from, p.args.id, p.args.response);
    }
  }

  lemma StepInOrder(sys: System, step: Step)
    requires Inv(sys) && SystemInOrder(sys)
    requires step.CallClient? && step.request.Write? ==> NoPendingWrite(Ops(sys.history), sys.fe.inFlight.Keys)
    ensures SystemInOrder(Apply(sys, step))
  {
    match step
    case CallClient(at, client, request) =>
      SessionBounds(sys);
      CallInOrder(sys, at, client, request);
    case Deliver(p) =>
      if p in sys.net {
        DeliverInOrder(sys, p);
      }
    case _ =>
  }

  lemma {:induction false} RunInOrder(steps: seq<Step>)
    requires WritesDoNotOverlap(steps)
    ensures SystemInOrder(Run(Start, steps))
  {
    if steps == [] {
      assert Ops([]) == [];
    } else {
      var front := steps[..|steps| - 1];
      RunInOrder(front);
      RunKeeps(front);
      StepInOrder(Run(Start, front), steps[|steps| - 1]);
    }
  }

  // ---- What this means for the two registers ----

  lemma SameSessionsSameValues(ops: seq<Op>, reg1: R.State, reg2: R.State)
    requires RegisterOk(ops, reg1) && RegisterOk(ops, reg2) && reg1.sessions <= reg2.sessions
    ensures reg1.value <= reg2.value
  {
    forall i | 0 <= i < |reg1.value|
      ensures reg1.value[i] == reg2.value[i]
    {
      assert reg1.sessions[i] == reg2.sessions[i];
    }
  }

  /** `more` is `less`, or `less` followed by a pending write. */
  ghost predicate LeadsByPending(ops: seq<Op>, inFlight: set<SessionId>, more: R.State, less: R.State) {
    || more == less
    || exists w: SessionId :: && PendingWrite(ops, inFlight, w)
                              && more.sessions == less.sessions + [w]
                              && more.value == less.value + [ops[w].request.value]
  }

  lemma TracksPrefix(ops: seq<Op>, inFlight: set<SessionId>, reg: R.State)
    requires Tracks(ops, inFlight, reg)
    ensures |Writes(ops)| - 1 <= |reg.sessions| <= |Writes(ops)| && reg.sessions == Writes(ops)[..|reg.sessions|]
  {
  }

  lemma OrderMeans(ops: seq<Op>, inFlight: set<SessionId>, more: R.State, less: R.State)
    requires RegisterOk(ops, more) && RegisterOk(ops, less) && InOrder(ops, inFlight, more, less)
    requires |more.sessions| >= |less.sessions|
    ensures LeadsByPending(ops, inFlight, more, less)
  {
    TracksPrefix(ops, inFlight, more);
    TracksPrefix(ops, inFlight, less);
    SameSessionsSameValues(ops, less, more);
    if more.sessions != less.sessions {
      var w: SessionId :| PendingWrite(ops, inFlight, w) && more.sessions == less.sessions + [w];
      assert more.sessions[|less.sessions|] == w;
    }
  }

  /**
   * If writes do not overlap each other, then in every reachable state the registers are equal, or one of them
   * is the other followed by the single pending write. Reads may overlap anything.
   */
  lemma RegistersAgree(steps: seq<Step>, sys: System)
    requires WritesDoNotOverlap(steps) && sys == Run(Start, steps)
    ensures PendingIsLast(Ops(sys.history), sys.fe.inFlight.Keys)
    ensures || LeadsByPending(Ops(sys.history), sys.fe.inFlight.Keys, sys.register1, sys.register2)
            || LeadsByPending(Ops(sys.history), sys.fe.inFlight.Keys, sys.register2, sys.register1)
  {
    var ops, inFlight := Ops(sys.history), sys.fe.inFlight.Keys;
    RunInOrder(steps);
    RunKeeps(steps);
    if |sys.register1.sessions| >= |sys.register2.sessions| {
      OrderMeans(ops, inFlight, sys.register1, sys.register2);
    } else {
      OrderMeans(ops, inFlight, sys.register2, sys.register1);
    }
  }
}
