/** Exactly the guard that lets nothing overlap a write in flight keeps every history linearizable. */
module LinearizabilityIff {
  import opened RegisterMessages
  import opened RegisterProtocol
  import opened RegisterProgress
  import opened Linearizability
  import opened RegisterAgreement
  import opened GuardedCalls
  import GuardedOrder
  import NewOldInversion
  import OverlappingWrites
  import FE = FrontEndState
  import R = RegisterReactor

  // ---- Continuations that obey ----

  lemma ObeysSnoc(steps: seq<Step>, step: Step, readers: bool, writers: bool)
    requires Obeys(steps, readers, writers)
    requires step.CallClient? ==> LetIn(Run(Start, steps), step.request, readers, writers)
    ensures Obeys(steps + [step], readers, writers)
  {
    assert (steps + [step])[..|steps|] == steps;
  }

  /** Continuations without calls obey every guard, and those with reads only a guard that lets reads in. */
  lemma {:induction false} ObeysAppend(steps: seq<Step>, more: seq<Step>, readers: bool, writers: bool)
    requires Obeys(steps, readers, writers) && (if readers then OnlyReads(more) else CallFree(more))
    ensures Obeys(steps + more, readers, writers)
  {
    if more == [] {
      assert steps + more == steps;
    } else {
      var front, last := more[..|more| - 1], more[|more| - 1];
      ObeysAppend(steps, front, readers, writers);
      ObeysSnoc(steps + front, last, readers, writers);
      assert steps + front + [last] == steps + more;
    }
  }

  ghost predicate Unwritten(sys: System) {
    NoPendingWrite(Ops(sys.history), sys.fe.inFlight.Keys)
  }

  lemma ReadsAddNoWrite(ops: seq<Op>, op: Op, inFlight: set<SessionId>)
    requires NoPendingWrite(ops, inFlight) && op.request.Read?
    ensures NoPendingWrite(ops + [op], inFlight + {|ops|})
  {
    forall w: SessionId | PendingWrite(ops + [op], inFlight + {|ops|}, w)
      ensures PendingWrite(ops, inFlight, w)
    {
    }
  }

  lemma FewerInFlight(ops: seq<Op>, inFlight: set<SessionId>, fewer: set<SessionId>)
    requires NoPendingWrite(ops, inFlight) && fewer <= inFlight
    ensures NoPendingWrite(ops, fewer)
  {
    forall w: SessionId | PendingWrite(ops, fewer, w)
      ensures PendingWrite(ops, inFlight, w)
    {
    }
  }

  lemma CollectLeavesOps(sys: System, from: Address, id: SessionId, response: Response)
    ensures Ops(Collect(sys, from, id, response).history) == Ops(sys.history)
    ensures Collect(sys, from, id, response).fe.inFlight.Keys <= sys.fe.inFlight.Keys
  {
    if FE.Completes(sys.fe, from, id) {
      Extend(sys.history, Replied(id, sys.fe.inFlight[id], response));
    }
  }

  lemma DeliverLeavesOps(sys: System, p: Packet)
    ensures Ops(Apply(sys, Deliver(p)).history) == Ops(sys.history)
    ensures Apply(sys, Deliver(p)).fe.inFlight.Keys <= sys.fe.inFlight.Keys
  {
    if p in sys.net && p.to.FrontEnd? && p.args.InternalResponse? {
      CollectLeavesOps(sys.(net := sys.net - multiset{p}), p.from, p.args.id, p.args.response);
    }
  }

  /** Only the call of a write makes a write pending. */
  lemma StaysUnwritten(sys: System, step: Step)
    requires Inv(sys) && Unwritten(sys) && (step.CallClient? ==> step.request.Read?)
    ensures Unwritten(Apply(sys, step))
  {
    match step
    case CallClient(at, client, request) =>
      SessionBounds(sys);
      Extend(sys.history, Invoked(sys.fe.nextSessionId, client, request));
      ReadsAddNoWrite(Ops(sys.history), Op(client, request, Acked(sys.history)), sys.fe.inFlight.Keys);
      assert sys.fe.inFlight[sys.fe.nextSessionId := client].Keys == sys.fe.inFlight.Keys + {sys.fe.nextSessionId};
    case Deliver(p) =>
      if p in sys.net {
        DeliverLeavesOps(sys, p);
        FewerInFlight(Ops(sys.history), sys.fe.inFlight.Keys, Apply(sys, step).fe.inFlight.Keys);
      }
    case _ =>
  }

  lemma ReadObeys(steps: seq<Step>, step: Step, readers: bool, writers: bool)
    requires Obeys(steps, readers, writers) && Unwritten(Run(Start, steps)) && (step.CallClient? ==> step.request.Read?)
    ensures Obeys(steps + [step], readers, writers) && Unwritten(Run(Start, steps + [step]))
  {
    ObeysSnoc(steps, step, readers, writers);
    RunKeeps(steps);
    StaysUnwritten(Run(Start, steps), step);
    RunSnoc(Start, steps, step);
  }

  /** Reads after all writes have been answered obey every guard. */
  lemma {:induction false} ReadsObey(steps: seq<Step>, more: seq<Step>, readers: bool, writers: bool)
    requires Obeys(steps, readers, writers) && OnlyReads(more) && Unwritten(Run(Start, steps))
    ensures Obeys(steps + more, readers, writers) && Unwritten(Run(Start, steps + more))
  {
    if more == [] {
      assert steps + more == steps;
    } else {
      var front, last := more[..|more| - 1], more[|more| - 1];
      ReadsObey(steps, front, readers, writers);
      ReadObeys(steps + front, last, readers, writers);
      assert steps + front + [last] == steps + more;
    }
  }

  // ---- Either overlap breaks it ----

  lemma StartIsUnwritten()
    ensures Unwritten(Start) && Obeys([], true, true) && Run(Start, []) == Start
  {
  }

  lemma ReadsBreakIt(writers: bool) returns (steps: seq<Step>)
    ensures Obeys(steps, true, writers) && !Linearizable(Run(Start, steps).history)
  {
    var call := CallClient(0, 0, Write(0));
    StartIsUnwritten();
    var more := NewOldInversion.ReadsDuringWriteMayInvert([], Start, call, 0, 0, 0);
    RunSnoc(Start, [], call);
    ObeysSnoc([], call, true, writers);
    ObeysAppend([] + [call], more, true, writers);
    steps := [] + [call] + more;
    RunAppend(Start, [] + [call], more);
  }

  lemma TwoCallsObey(first: Step, second: Step)
    requires first.CallClient? && second.CallClient? && second.request.Write?
    ensures Obeys([] + [first] + [second], false, true)
    ensures Run(Start, [] + [first] + [second]) == Apply(Apply(Start, first), second)
  {
    StartIsUnwritten();
    ObeysSnoc([], first, false, true);
    ObeysSnoc([] + [first], second, false, true);
    RunSnoc(Start, [], first);
    RunSnoc(Start, [] + [first], second);
  }

  lemma OppositeIsNoPrefix(old1: R.State, old2: R.State, sys: System, s: SessionId, x: int, t: SessionId, y: int)
    requires OverlappingWrites.Opposite(old1, old2, sys, s, x, t, y) && x != y && old1.value == [] == old2.value
    ensures !(sys.register1.value <= sys.register2.value)
  {
    assert (old1.value + [x, y])[0] == x && (old2.value + [y, x])[0] == y;
  }

  lemma DisagreeAfter(twice: System, more: seq<Step>)
    requires twice.register1.value == [] == twice.register2.value
    requires forall rest ::
      OverlappingWrites.Opposite(twice.register1, twice.register2, Run(twice, more + rest), 0, 0, 1, 1)
    ensures !(Run(twice, more).register1.value <= Run(twice, more).register2.value)
  {
    assert more + [] == more;
    OppositeIsNoPrefix(twice.register1, twice.register2, Run(twice, more + []), 0, 0, 1, 1);
  }

  lemma TwoWrites() returns (calls: seq<Step>, twice: System)
    ensures Obeys(calls, false, true) && twice == Run(Start, calls) && Inv(twice)
    ensures OverlappingWrites.TwoUnapplied(twice, 0, 1)
    ensures Ops(twice.history)[0].request == Write(0) && Ops(twice.history)[1].request == Write(1)
    ensures twice.register1.value == [] == twice.register2.value
  {
    var first, second := CallClient(0, 0, Write(0)), CallClient(0, 0, Write(1));
    calls := [] + [first] + [second];
    StartOk();
    TwoCallsObey(first, second);
    twice := OverlappingWrites.TwoCalls(Start, 0, 0, 0, 0, 1);
  }

  /** Both writes acknowledged, in opposite orders, and nothing in flight. */
  lemma WritesDisagree() returns (steps: seq<Step>)
    ensures Obeys(steps, false, true) && Run(Start, steps).fe.inFlight == map[]
    ensures !(Run(Start, steps).register1.value <= Run(Start, steps).register2.value)
  {
    var calls, twice := TwoWrites();
    var more := OverlappingWrites.OverlapMayDisagreeForEver(twice, 0, 0, 1, 1);
    DisagreeAfter(twice, more);
    ObeysAppend(calls, more, false, true);
    RunAppend(Start, calls, more);
    steps := calls + more;
  }

  lemma WritesBreakIt() returns (steps: seq<Step>)
    ensures Obeys(steps, false, true) && !Linearizable(Run(Start, steps).history)
  {
    var first := WritesDisagree();
    RunKeeps(first);
    var more := NewOldInversion.ReadBoth(Run(Start, first), 0, 0, 0);
    IdleIsUnwritten(Run(Start, first));
    ReadsObey(first, more, false, true);
    steps := first + more;
    RunAppend(Start, first, more);
  }

  lemma IdleIsUnwritten(sys: System)
    requires sys.fe.inFlight == map[]
    ensures Unwritten(sys)
  {
  }

  // ---- The exact guard ----

  /**
   * Every history of every run that obeys the guard is linearizable if and only if the guard lets neither reads
   * nor writes in while a write is in flight.
   */
  lemma LinearizableIff(readers: bool, writers: bool)
    ensures (forall steps :: Obeys(steps, readers, writers) ==> Linearizable(Run(Start, steps).history))
       <==> !readers && !writers
  {
    if readers {
      var steps := ReadsBreakIt(writers);
    } else if writers {
      var steps := WritesBreakIt();
    } else {
      forall steps | Obeys(steps, readers, writers)
        ensures Linearizable(Run(Start, steps).history)
      {
        GuardedOrder.GuardedAreLinearizable(steps, Run(Start, steps).history);
      }
    }
  }
}
