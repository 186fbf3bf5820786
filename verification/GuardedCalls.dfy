/** What clients see if no call is let in while a write is in flight. */
module GuardedCalls {
  import opened RegisterMessages
  import opened RegisterProtocol
  import opened RegisterAgreement
  import SequentialRefinement
  import FE = FrontEndState
  import R = RegisterReactor

  /** The guard of a frontend that lets a call in while a write is in flight only if it is a kind that it lets overlap. */
  ghost predicate LetIn(sys: System, request: Request, readers: bool, writers: bool) {
    NoPendingWrite(Ops(sys.history), sys.fe.inFlight.Keys) || (if request.Read? then readers else writers)
  }

  ghost predicate Obeys(steps: seq<Step>, readers: bool, writers: bool) {
    steps != [] ==>
      var front, step := steps[..|steps| - 1], steps[|steps| - 1];
      Obeys(front, readers, writers) && (step.CallClient? ==> LetIn(Run(Start, front), step.request, readers, writers))
  }

  /** Nothing is called while a write is in flight; a write may be called while reads are. */
  ghost predicate Guarded(steps: seq<Step>) {
    Obeys(steps, false, false)
  }

  // ---- Which values a read may return ----

  /** The arguments of the writes, in the order in which they were issued. */
  function WriteValues(ops: seq<Op>): seq<int> {
    if ops == [] then []
    else
      var op := ops[|ops| - 1];
      WriteValues(ops[..|ops| - 1]) + if op.request.Write? then [op.request.value] else []
  }

  lemma {:induction false} ValuesOfWrites(ops: seq<Op>)
    ensures |WriteValues(ops)| == |Writes(ops)|
    ensures forall i :: 0 <= i < |Writes(ops)| ==>
      Writes(ops)[i] < |ops| && ops[Writes(ops)[i]].request == Write(WriteValues(ops)[i])
  {
    if ops != [] {
      ValuesOfWrites(ops[..|ops| - 1]);
    }
  }

  lemma {:induction false} WritesOfPrefix(ops: seq<Op>, n: nat)
    requires n <= |ops|
    ensures Writes(ops[..n]) <= Writes(ops) && WriteValues(ops[..n]) <= WriteValues(ops)
  {
    if n < |ops| {
      WritesOfPrefix(ops[..|ops| - 1], n);
      assert ops[..|ops| - 1][..n] == ops[..n];
    } else {
      assert ops[..n] == ops;
    }
  }

  /** A read returns the first writes in order, at least all that were issued before it. */
  predicate Window(ops: seq<Op>, s: SessionId, values: seq<int>) {
    s < |ops| && |Writes(ops[..s])| <= |values| && values <= WriteValues(ops)
  }

  ghost predicate Windowed(h: seq<Event>) {
    h != [] ==>
      var front, e := h[..|h| - 1], h[|h| - 1];
      Windowed(front) && (e.Replied? && e.response.Value? ==> Window(Ops(front), e.session, e.response.values))
  }

  lemma WindowedSnoc(h: seq<Event>, e: Event)
    requires Windowed(h) && (e.Replied? && e.response.Value? ==> Window(Ops(h), e.session, e.response.values))
    ensures Windowed(h + [e])
  {
    assert (h + [e])[..|h|] == h;
  }

  /** At each call all earlier writes have been acknowledged. */
  ghost predicate FencesFull(ops: seq<Op>) {
    forall s: SessionId, w: SessionId :: s < |ops| && w in Writes(ops[..s]) ==> w in ops[s].ackedBefore
  }

  // ---- Every reply is in its window ----

  lemma RegisterValues(ops: seq<Op>, inFlight: set<SessionId>, reg: R.State)
    requires RegisterOk(ops, reg) && Tracks(ops, inFlight, reg)
    ensures reg.value <= WriteValues(ops)
  {
    TracksPrefix(ops, inFlight, reg);
    ValuesOfWrites(ops);
    forall i | 0 <= i < |reg.value|
      ensures reg.value[i] == WriteValues(ops)[i]
    {
      assert reg.sessions[i] == Writes(ops)[i];
    }
  }

  /** A prefix of distinct sessions that contains the first n of them has at least n. */
  lemma PrefixIsLongEnough(all: seq<SessionId>, n: nat, m: nat)
    requires R.Distinct(all) && n <= |all| && m <= |all|
    requires forall i :: 0 <= i < n ==> all[i] in all[..m]
    ensures n <= m
  {
    if n > 0 {
      var k :| 0 <= k < m && all[..m][k] == all[n - 1];
      assert all[k] == all[n - 1];
    }
  }

  lemma SeesWindow(ops: seq<Op>, inFlight: set<SessionId>, reg: R.State, s: SessionId, values: seq<int>)
    requires RegisterOk(ops, reg) && Tracks(ops, inFlight, reg) && FencesFull(ops)
    requires s < |ops| && Sees(ops[s], reg, values)
    ensures Window(ops, s, values)
  {
    RegisterValues(ops, inFlight, reg);
    TracksPrefix(ops, inFlight, reg);
    WritesAreDistinct(ops);
    WritesOfPrefix(ops, s);
    var before := Writes(ops[..s]);
    forall i | 0 <= i < |before|
      ensures Writes(ops)[i] in Writes(ops)[..|values|]
    {
      assert before[i] in before && before[i] == Writes(ops)[i];
      assert reg.sessions[..|values|] == Writes(ops)[..|values|];
    }
    PrefixIsLongEnough(Writes(ops), |before|, |values|);
  }

  ghost predicate SystemGuarded(sys: System) {
    SystemInOrder(sys) && FencesFull(Ops(sys.history)) && Windowed(sys.history)
  }

  /** Without a pending write all writes have been acknowledged. */
  lemma AllWritesAcked(sys: System)
    requires Inv(sys) && NoPendingWrite(Ops(sys.history), sys.fe.inFlight.Keys)
    ensures forall w: SessionId :: w in Writes(Ops(sys.history)) ==> w in Acked(sys.history)
  {
    var ops := Ops(sys.history);
    WritesMembers(ops);
    forall w: SessionId | w in Writes(ops)
      ensures w in Acked(sys.history)
    {
      assert !PendingWrite(ops, sys.fe.inFlight.Keys, w);
      SequentialRefinement.AnsweredWritesAreAcked(sys, w);
    }
  }

  lemma FencesSnoc(ops: seq<Op>, op: Op)
    requires FencesFull(ops) && forall w: SessionId :: w in Writes(ops) ==> w in op.ackedBefore
    ensures FencesFull(ops + [op])
  {
    forall s: SessionId, w: SessionId | s < |ops + [op]| && w in Writes((ops + [op])[..s])
      ensures w in (ops + [op])[s].ackedBefore
    {
      assert (ops + [op])[..s] == if s < |ops| then ops[..s] else ops;
    }
  }

  lemma CallKeepsWindows(sys: System, at: Time, client: ClientId, request: Request)
    requires Inv(sys) && FencesFull(Ops(sys.history)) && Windowed(sys.history)
    requires NoPendingWrite(Ops(sys.history), sys.fe.inFlight.Keys)
    ensures
      var h := Call(sys, at, client, request).history;
      FencesFull(Ops(h)) && Windowed(h)
  {
    var h, e := sys.history, Invoked(sys.fe.nextSessionId, client, request);
    AllWritesAcked(sys);
    Extend(h, e);
    FencesSnoc(Ops(h), Op(client, request, Acked(h)));
    WindowedSnoc(h, e);
  }

  lemma CollectKeepsWindows(sys: System, from: Address, id: SessionId, response: Response)
    requires Inv(sys) && SystemGuarded(sys) && IsRegister(from) && id < |Ops(sys.history)|
    requires ResponseOk(Ops(sys.history)[id], id, sys.Reg(from), response)
    ensures
      var h := Collect(sys, from, id, response).history;
      FencesFull(Ops(h)) && Windowed(h)
  {
    if FE.Completes(sys.fe, from, id) {
      CollectReply(sys, from, id, response);
      if response.Value? {
        SeesWindow(Ops(sys.history), sys.fe.inFlight.Keys, sys.Reg(from), id, response.values);
      }
      WindowedSnoc(sys.history, Replied(id, sys.fe.inFlight[id], response));
    }
  }

  lemma DeliverKeepsWindows(sys: System, p: Packet)
    requires Inv(sys) && SystemGuarded(sys) && p in sys.net
    ensures
      var h := Apply(sys, Deliver(p)).history;
      FencesFull(Ops(h)) && Windowed(h)
  {
    var rest := sys.(net := sys.net - multiset{p});
    StepKeeps(sys, Drop(p));
    assert PacketOk(Ops(sys.history), sys.register1, sys.register2, p);
    if p.args.InternalResponse? {
      CollectKeepsWindows(rest, p.from, p.args.id, p.args.response);
    }
  }

  lemma StepGuarded(sys: System, step: Step)
    requires Inv(sys) && SystemGuarded(sys)
    requires step.CallClient? ==> NoPendingWrite(Ops(sys.history), sys.fe.inFlight.Keys)
    ensures SystemGuarded(Apply(sys, step))
  {
    StepInOrder(sys, step);
    match step
    case CallClient(at, client, request) => CallKeepsWindows(sys, at, client, request);
    case Deliver(p) =>
      if p in sys.net {
        DeliverKeepsWindows(sys, p);
      }
    case _ =>
  }

  /** In every such run each read returns the first writes in order, and no less than all issued before it. */
  lemma {:induction false} GuardedReadsAreWindowed(steps: seq<Step>)
    requires Guarded(steps)
    ensures SystemGuarded(Run(Start, steps))
  {
    if steps == [] {
      assert Ops([]) == [];
    } else {
      var front := steps[..|steps| - 1];
      GuardedReadsAreWindowed(front);
      RunKeeps(front);
      StepGuarded(Run(Start, front), steps[|steps| - 1]);
    }
  }
}
