/** What clients of FrontEnd4 may rely on in every run, with any number of overlapping requests. */
module RegisterGuarantees {
  import opened RegisterMessages
  import opened RegisterProtocol
  import FE = FrontEndState
  import R = RegisterReactor

  // ---- Legal client histories ----

  /** `values` are the arguments of distinct writes `ss`, among them all writes acknowledged before the call. */
  ghost predicate Explains(ops: seq<Op>, s: SessionId, ss: seq<SessionId>, values: seq<int>)
    requires s < |ops|
  {
    && |ss| == |values| && R.Distinct(ss)
    && (forall k :: 0 <= k < |ss| ==> ss[k] < |ops| && ops[ss[k]].request == Write(values[k]))
    && (forall w :: w in ops[s].ackedBefore ==> w in ss)
  }

  ghost predicate LegalResponse(ops: seq<Op>, s: SessionId, response: Response)
    requires s < |ops|
  {
    match ops[s].request
    case Write(_) => response.Ack?
    case Read => response.Value? && exists ss :: Explains(ops, s, ss, response.values)
  }

  /** A call opens the next session; a reply goes, once, to the client whose call it answers. */
  ghost predicate LegalEvent(past: seq<Event>, e: Event) {
    match e
    case Invoked(s, _, _) => s == |Ops(past)|
    case Replied(s, client, response) =>
      && s < |Ops(past)| && s !in Answered(past)
      && client == Ops(past)[s].client
      && LegalResponse(Ops(past), s, response)
  }

  ghost predicate Legal(h: seq<Event>) {
    h != [] ==> Legal(h[..|h| - 1]) && LegalEvent(h[..|h| - 1], h[|h| - 1])
  }

  lemma LegalSnoc(h: seq<Event>, e: Event)
    requires Legal(h) && LegalEvent(h, e)
    ensures Legal(h + [e])
  {
    assert (h + [e])[..|h|] == h;
  }

  lemma PrefixExplains(ops: seq<Op>, s: SessionId, reg: R.State, values: seq<int>)
    requires s < |ops| && RegisterOk(ops, reg) && Sees(ops[s], reg, values)
    ensures Explains(ops, s, reg.sessions[..|values|], values)
  {
  }

  lemma CollectLegal(sys: System, from: Address, id: SessionId, response: Response)
    requires Inv(sys) && IsRegister(from) && FE.Completes(sys.fe, from, id) && id < |Ops(sys.history)|
    requires ResponseOk(Ops(sys.history)[id], id, sys.Reg(from), response)
    ensures LegalEvent(sys.history, Replied(id, sys.fe.inFlight[id], response))
  {
    if response.Value? {
      PrefixExplains(Ops(sys.history), id, sys.Reg(from), response.values);
    }
  }

  lemma StepLegal(sys: System, step: Step)
    requires Inv(sys) && Legal(sys.history)
    ensures Legal(Apply(sys, step).history)
  {
    match step
    case CallClient(at, client, request) =>
      LegalSnoc(sys.history, Invoked(sys.fe.nextSessionId, client, request));
    case Deliver(p) =>
      if p in sys.net && p.to.FrontEnd? && p.args.InternalResponse? && FE.Completes(sys.fe, p.from, p.args.id) {
        assert PacketOk(Ops(sys.history), sys.register1, sys.register2, p);
        CollectLegal(sys, p.from, p.args.id, p.args.response);
        LegalSnoc(sys.history, Replied(p.args.id, sys.fe.inFlight[p.args.id], p.args.response));
      }
    case _ =>
  }

  /** Whatever the network does, every history that clients can observe is legal. */
  lemma {:induction false} HistoriesAreLegal(steps: seq<Step>)
    ensures Legal(Run(Start, steps).history)
  {
    if steps != [] {
      var front := steps[..|steps| - 1];
      HistoriesAreLegal(front);
      RunKeeps(front);
      StepLegal(Run(Start, front), steps[|steps| - 1]);
    }
  }

  // ---- What legality means for single events ----

  lemma {:induction false} LegalPrefix(h: seq<Event>, n: nat)
    requires Legal(h) && n <= |h|
    ensures Legal(h[..n])
    ensures n < |h| ==> LegalEvent(h[..n], h[n])
  {
    if n < |h| {
      var front := h[..|h| - 1];
      if n < |front| {
        LegalPrefix(front, n);
        assert front[..n] == h[..n];
      }
    } else {
      assert h[..n] == h;
    }
  }

  lemma {:induction false} OpsPrefix(h: seq<Event>, n: nat)
    requires n <= |h|
    ensures Ops(h[..n]) <= Ops(h)
  {
    if n < |h| {
      OpsPrefix(h[..|h| - 1], n);
      assert h[..|h| - 1][..n] == h[..n];
    } else {
      assert h[..n] == h;
    }
  }

  lemma OpsMonotone(h: seq<Event>, m: nat, n: nat)
    requires m <= n <= |h|
    ensures Ops(h[..m]) <= Ops(h[..n])
  {
    OpsPrefix(h[..n], m);
    assert h[..n][..m] == h[..m];
  }

  lemma {:induction false} AckedIffReplied(h: seq<Event>, s: SessionId)
    ensures s in Acked(h) <==> exists i :: 0 <= i < |h| && h[i].Replied? && h[i].session == s && h[i].response.Ack?
  {
    if h != [] {
      AckedIffReplied(h[..|h| - 1], s);
    }
  }

  /** The operation that a call opens is numbered, and fenced, by the history before it. */
  lemma OpOfCall(h: seq<Event>, j: nat)
    requires Legal(h) && j < |h| && h[j].Invoked?
    ensures h[j].session < |Ops(h)|
    ensures Ops(h)[h[j].session] == Op(h[j].client, h[j].request, Acked(h[..j]))
  {
    LegalPrefix(h, j);
    Extend(h[..j], h[j]);
    assert h[..j] + [h[j]] == h[..j + 1];
    OpsPrefix(h, j + 1);
  }

  lemma {:induction false} AnsweredIffReplied(h: seq<Event>, s: SessionId)
    ensures s in Answered(h) <==> exists i :: 0 <= i < |h| && h[i].Replied? && h[i].session == s
  {
    if h != [] {
      AnsweredIffReplied(h[..|h| - 1], s);
    }
  }

  /** No session is replied to twice. */
  lemma RepliesAreUnique(steps: seq<Step>, i: nat, j: nat)
    requires
      var h := Run(Start, steps).history;
      i < j < |h| && h[i].Replied? && h[j].Replied?
    ensures
      var h := Run(Start, steps).history;
      h[i].session != h[j].session
  {
    var h := Run(Start, steps).history;
    HistoriesAreLegal(steps);
    LegalPrefix(h, j);
    AnsweredIffReplied(h[..j], h[i].session);
    assert h[..j][i] == h[i];
  }

  lemma ReplyFollowsCall(h: seq<Event>, j: nat, k: nat)
    requires Legal(h) && j < |h| && k < |h|
    requires h[j].Invoked? && h[k].Replied? && h[k].session == h[j].session
    ensures j < k
  {
    LegalPrefix(h, j);
    LegalPrefix(h, k);
    if k <= j {
      OpsMonotone(h, k, j);
    }
  }

  /** Reply i acknowledges a write, call j is a later read, and reply k answers that read. */
  predicate ReadAfterAck(h: seq<Event>, i: nat, j: nat, k: nat) {
    && i < j < |h| && k < |h|
    && h[i].Replied? && h[i].response.Ack?
    && h[j].Invoked? && h[j].request.Read?
    && h[k].Replied? && h[k].session == h[j].session
  }

  /** In a legal history the reply to such a read contains the write. */
  lemma LegalReadsAreFresh(h: seq<Event>, i: nat, j: nat, k: nat)
    requires Legal(h) && ReadAfterAck(h, i, j, k)
    ensures j < k && h[k].client == h[j].client && h[k].response.Value?
    ensures h[i].session < |Ops(h)| && Ops(h)[h[i].session].request.Write?
    ensures Ops(h)[h[i].session].request.value in h[k].response.values
  {
    var past, w, s := h[..k], h[i].session, h[j].session;
    OpOfCall(h, j);
    LegalPrefix(h, k);
    ReplyFollowsCall(h, j, k);
    OpsPrefix(h, k);
    AckedIffReplied(h[..j], w);
    assert h[..j][i] == h[i];
    var ss :| Explains(Ops(past), s, ss, h[k].response.values);
    var n :| 0 <= n < |ss| && ss[n] == w;
    assert Ops(past)[ss[n]].request == Write(h[k].response.values[n]);
  }

  /**
   * Freshness: a write acknowledged (at i) before a read is invoked (at j) is in the reply to that read
   * (at k), whichever register the reply came from.
   */
  lemma ReadsAreFresh(steps: seq<Step>, h: seq<Event>, i: nat, j: nat, k: nat)
    requires h == Run(Start, steps).history && ReadAfterAck(h, i, j, k)
    ensures j < k && h[k].client == h[j].client && h[k].response.Value?
    ensures h[i].session < |Ops(h)| && Ops(h)[h[i].session].request.Write?
    ensures Ops(h)[h[i].session].request.value in h[k].response.values
  {
    HistoriesAreLegal(steps);
    LegalReadsAreFresh(h, i, j, k);
  }

  // ---- Durability and exactly-once ----

  /** The register holds the write of session `s` at exactly one position, with the value `x`. */
  ghost predicate HoldsOnce(reg: R.State, s: SessionId, x: int) {
    && |reg.value| == |reg.sessions|
    && exists k :: 0 <= k < |reg.sessions| && reg.value[k] == x
         && forall j :: 0 <= j < |reg.sessions| ==> (reg.sessions[j] == s <==> j == k)
  }

  lemma RegisterHoldsOnce(ops: seq<Op>, reg: R.State, s: SessionId)
    requires RegisterOk(ops, reg) && s in reg.sessions
    ensures s < |ops| && ops[s].request.Write? && HoldsOnce(reg, s, ops[s].request.value)
  {
    var k :| 0 <= k < |reg.sessions| && reg.sessions[k] == s;
    assert reg.value[k] == ops[s].request.value;
  }

  /** An acknowledged write is in both registers, once, now and in every later state. */
  lemma AckedWritesAreDurable(steps: seq<Step>, s: SessionId)
    requires s in Acked(Run(Start, steps).history)
    ensures
      var sys := Run(Start, steps);
      var ops := Ops(sys.history);
      && s < |ops| && ops[s].request.Write?
      && HoldsOnce(sys.register1, s, ops[s].request.value)
      && HoldsOnce(sys.register2, s, ops[s].request.value)
  {
    RunKeeps(steps);
    var sys := Run(Start, steps);
    RegisterHoldsOnce(Ops(sys.history), sys.register1, s);
    RegisterHoldsOnce(Ops(sys.history), sys.register2, s);
  }

  lemma ServeGrows(sys: System, r: Address, client: Address, id: SessionId, request: Request)
    requires IsRegister(r)
    ensures R.Grows(sys.register1, Serve(sys, r, client, id, request).register1)
    ensures R.Grows(sys.register2, Serve(sys, r, client, id, request).register2)
    ensures sys.history == Serve(sys, r, client, id, request).history
  {
  }

  lemma StepGrows(sys: System, step: Step)
    ensures R.Grows(sys.register1, Apply(sys, step).register1)
    ensures R.Grows(sys.register2, Apply(sys, step).register2)
    ensures sys.history <= Apply(sys, step).history
  {
    match step
    case Deliver(p) =>
      if p in sys.net && IsRegister(p.to) && p.args.InternalRequest? {
        ServeGrows(sys.(net := sys.net - multiset{p}), p.to, p.from, p.args.id, p.args.request);
      }
    case _ =>
  }

  /** Registers are append-only over whole runs. */
  lemma {:induction false} RegistersGrow(sys: System, steps: seq<Step>)
    ensures R.Grows(sys.register1, Run(sys, steps).register1)
    ensures R.Grows(sys.register2, Run(sys, steps).register2)
    ensures sys.history <= Run(sys, steps).history
  {
    if steps != [] {
      RegistersGrow(sys, steps[..|steps| - 1]);
      StepGrows(Run(sys, steps[..|steps| - 1]), steps[|steps| - 1]);
    }
  }

  /** A register applies each write at most once and nothing that no client asked for. */
  lemma WritesAppliedOnce(steps: seq<Step>)
    ensures
      var sys := Run(Start, steps);
      forall r :: IsRegister(r) ==>
        && RegisterOk(Ops(sys.history), sys.Reg(r))
        && (forall k :: 0 <= k < |sys.Reg(r).sessions| ==>
              HoldsOnce(sys.Reg(r), sys.Reg(r).sessions[k], sys.Reg(r).value[k]))
  {
    RunKeeps(steps);
    var sys := Run(Start, steps);
    forall r, k | IsRegister(r) && 0 <= k < |sys.Reg(r).sessions|
      ensures HoldsOnce(sys.Reg(r), sys.Reg(r).sessions[k], sys.Reg(r).value[k])
    {
      RegisterHoldsOnce(Ops(sys.history), sys.Reg(r), sys.Reg(r).sessions[k]);
    }
  }

  // ---- Conservation ----

  function Calls(h: seq<Event>): nat {
    if h == [] then 0 else Calls(h[..|h| - 1]) + if h[|h| - 1].Invoked? then 1 else 0
  }

  function Replies(h: seq<Event>): nat {
    if h == [] then 0 else Replies(h[..|h| - 1]) + if h[|h| - 1].Replied? then 1 else 0
  }

  lemma {:induction false} CountEvents(h: seq<Event>)
    ensures Calls(h) == |Ops(h)| && Replies(h) == |Answered(h)|
  {
    if h != [] {
      CountEvents(h[..|h| - 1]);
    }
  }

  /** Requests = replies + sessions in flight, and one or two awaited responses per session in flight. */
  lemma RequestsAreConserved(steps: seq<Step>)
    ensures
      var sys := Run(Start, steps);
      && Calls(sys.history) == Replies(sys.history) + |sys.fe.inFlight|
      && |sys.fe.inFlight| <= |sys.fe.onGoing| <= 2 * |sys.fe.inFlight|
  {
    RunKeeps(steps);
    CountEvents(Run(Start, steps).history);
    FE.EntriesPerSession(Run(Start, steps).fe);
  }
}
