/** In the AckDeliv round acknowledgements clear the flags, and sending can always come to an end. */
module BroadcastQuiescence {
  import opened BroadcastNode
  import opened BroadcastProtocol
  import opened BroadcastDelivery

  function AckFor(n: Name, m: Name): Packet {
    Packet(m, n, Ack)
  }

  ghost predicate SameFlags(sys: System, sys': System) {
    forall a, b :: Flag(sys', a, b) <==> Flag(sys, a, b)
  }

  // ---- One step ----

  lemma DeliverShape(sys: System, p: Packet)
    requires Enabled(sys, Deliver(p))
    ensures
      var node, sys' := sys.nodes[p.to], Apply(sys, Deliver(p));
      && sys'.nodes == sys.nodes[p.to := Take(node, p.from, p.message)]
      && sys'.net == NetAfter(sys.net - multiset{p}, p.to, TakeEvents(node, p.from, p.message))
      && sys'.sent == SentAfter(sys.sent, p.to, TakeEvents(node, p.from, p.message))
  {
  }

  lemma FireShape(sys: System, n: Name)
    requires n in sys.nodes
    ensures
      var node, sys' := sys.nodes[n], Apply(sys, FireTimer(n));
      && sys'.nodes == sys.nodes[n := Fire(node)]
      && sys'.net == sys.net + Spread(n, Targets(node), Broadcast(node.log))
      && sys'.sent == sys.sent + Edges(n, Targets(node))
  {
  }

  lemma SameNeighbours(sys: System, sys': System, n: Name, node: Node)
    requires n in sys.nodes && sys'.nodes == sys.nodes[n := node] && node.neighbours == sys.nodes[n].neighbours
    ensures SameFlags(sys, sys')
  {
  }

  lemma ClearedNeighbour(sys: System, sys': System, n: Name, m: Name, node: Node)
    requires n in sys.nodes && sys'.nodes == sys.nodes[n := node]
    requires m in sys.nodes[n].neighbours && node.neighbours == sys.nodes[n].neighbours[m := false]
    ensures forall a, b :: Flag(sys', a, b) <==> Flag(sys, a, b) && !(a == n && b == m)
  {
  }

  lemma Accepts(cfg: Config, sys: System, p: Packet)
    requires Inv(cfg, sys) && p in sys.net
    ensures Enabled(sys, Deliver(p)) && PacketOk(cfg, sys.nodes, p)
    ensures NodeOk(cfg, p.from, sys.nodes[p.from]) && NodeOk(cfg, p.to, sys.nodes[p.to])
  {
    DeliverKeeps(cfg, sys, p);
    assert PacketOk(cfg, sys.nodes, p);
  }

  /** A node that gets a Broadcast has the payload and acknowledges it to the sender. */
  lemma BroadcastIsAcknowledged(cfg: Config, sys: System, n: Name, m: Name)
    requires Inv(cfg, sys) && cfg.round.AckDeliv? && Payload(n, m) in sys.net
    ensures
      var sys' := Apply(sys, Deliver(Payload(n, m)));
      AckFor(n, m) in sys'.net && Informed(sys', m) && SameFlags(sys, sys')
  {
    var sys' := Apply(sys, Deliver(Payload(n, m)));
    Accepts(cfg, sys, Payload(n, m));
    DeliverShape(sys, Payload(n, m));
    SpreadMembers(m, {n}, Ack);
    SameNeighbours(sys, sys', m, Take(sys.nodes[m], n, Broadcast(PAYLOAD)));
  }

  /** An acknowledgement from m clears n's flag for m, and no other. */
  lemma AckClearsFlag(cfg: Config, sys: System, n: Name, m: Name)
    requires Inv(cfg, sys) && AckFor(n, m) in sys.net
    ensures
      var sys' := Apply(sys, Deliver(AckFor(n, m)));
      forall a, b :: Flag(sys', a, b) <==> Flag(sys, a, b) && !(a == n && b == m)
  {
    Accepts(cfg, sys, AckFor(n, m));
    DeliverShape(sys, AckFor(n, m));
    ClearedNeighbour(sys, Apply(sys, Deliver(AckFor(n, m))), n, m, Take(sys.nodes[n], m, Ack));
  }

  /** In this round a timer clears nothing. */
  lemma FireKeepsFlags(cfg: Config, sys: System, n: Name)
    requires Inv(cfg, sys) && cfg.round.AckDeliv? && n in sys.nodes
    ensures SameFlags(sys, Apply(sys, FireTimer(n)))
  {
    assert NodeOk(cfg, n, sys.nodes[n]);
    FireShape(sys, n);
    SameNeighbours(sys, Apply(sys, FireTimer(n)), n, Fire(sys.nodes[n]));
  }

  /** Send, deliver, acknowledge: exactly one flag less. */
  lemma ClearOne(cfg: Config, sys: System, n: Name, m: Name) returns (steps: seq<Step>)
    requires Inv(cfg, sys) && cfg.round.AckDeliv? && Informed(sys, n) && Flag(sys, n, m)
    ensures forall a, b :: Flag(Run(sys, steps), a, b) <==> Flag(sys, a, b) && !(a == n && b == m)
  {
    var fired := [] + [FireTimer(n)];
    RunSnoc(sys, [], FireTimer(n));
    FireSends(sys, n, m);
    FireKeepsFlags(cfg, sys, n);
    RunKeeps(cfg, sys, fired);
    var delivered := fired + [Deliver(Payload(n, m))];
    RunSnoc(sys, fired, Deliver(Payload(n, m)));
    BroadcastIsAcknowledged(cfg, Run(sys, fired), n, m);
    RunKeeps(cfg, sys, delivered);
    steps := delivered + [Deliver(AckFor(n, m))];
    RunSnoc(sys, delivered, Deliver(AckFor(n, m)));
    AckClearsFlag(cfg, Run(sys, delivered), n, m);
  }

  // ---- All edges ----

  function Flags(sys: System): set<(Name, Name)> {
    set n, m | n in sys.nodes && m in sys.nodes[n].neighbours && Flag(sys, n, m) :: (n, m)
  }

  lemma FlagsMembers(sys: System)
    ensures forall n, m :: (n, m) in Flags(sys) <==> Flag(sys, n, m)
  {
  }

  lemma OneFlagLess(sys: System, sys': System, n: Name, m: Name)
    requires Flag(sys, n, m)
    requires forall a, b :: Flag(sys', a, b) <==> Flag(sys, a, b) && !(a == n && b == m)
    ensures Flags(sys') == Flags(sys) - {(n, m)} && |Flags(sys')| < |Flags(sys)|
  {
    FlagsMembers(sys);
    FlagsMembers(sys');
    forall e: (Name, Name)
      ensures e in Flags(sys') <==> e in Flags(sys) - {(n, m)}
    {
      assert e == (e.0, e.1);
    }
  }

  /** The number of set flags is the measure. */
  lemma {:induction false} Quiesce(cfg: Config, sys: System) returns (more: seq<Step>)
    requires Inv(cfg, sys) && cfg.round.AckDeliv?
    ensures Quiescent(Run(sys, more))
    decreases |Flags(sys)|
  {
    if n, m :| Informed(sys, n) && Flag(sys, n, m) {
      var first := ClearOne(cfg, sys, n, m);
      RunKeeps(cfg, sys, first);
      OneFlagLess(sys, Run(sys, first), n, m);
      var rest := Quiesce(cfg, Run(sys, first));
      more := first + rest;
      RunAppend(sys, first, rest);
    } else {
      more := [];
    }
  }

  // ---- Quiescence lasts ----

  lemma NoTargets(cfg: Config, sys: System, n: Name)
    requires n in sys.nodes && NodeOk(cfg, n, sys.nodes[n]) && Quiescent(sys)
    ensures Targets(sys.nodes[n]) == {}
  {
    forall m | m in sys.nodes[n].neighbours
      ensures m !in Targets(sys.nodes[n])
    {
      assert Informed(sys, n) ==> !Flag(sys, n, m);
    }
  }

  lemma StillQuiescent(sys: System, sys': System)
    requires Quiescent(sys) && (forall n, m :: Flag(sys', n, m) ==> Flag(sys, n, m))
    requires forall n :: Informed(sys', n) ==> Informed(sys, n)
    ensures Quiescent(sys')
  {
  }

  lemma FireWhenQuiet(cfg: Config, sys: System, n: Name)
    requires Inv(cfg, sys) && cfg.round.AckDeliv? && Quiescent(sys) && n in sys.nodes
    ensures Quiescent(Apply(sys, FireTimer(n))) && Apply(sys, FireTimer(n)).sent == sys.sent
  {
    assert NodeOk(cfg, n, sys.nodes[n]);
    NoTargets(cfg, sys, n);
    FireShape(sys, n);
    FireKeepsFlags(cfg, sys, n);
    assert Edges(n, {}) == multiset{};
    StillQuiescent(sys, Apply(sys, FireTimer(n)));
  }

  lemma BroadcastWhenQuiet(cfg: Config, sys: System, n: Name, m: Name)
    requires Inv(cfg, sys) && cfg.round.AckDeliv? && Quiescent(sys) && Payload(n, m) in sys.net
    ensures forall k :: Informed(Apply(sys, Deliver(Payload(n, m))), k) ==> Informed(sys, k)
    ensures Apply(sys, Deliver(Payload(n, m))).sent == sys.sent
  {
    Accepts(cfg, sys, Payload(n, m));
    DeliverShape(sys, Payload(n, m));
    DeliverInforms(cfg, sys, n, m);
    assert Informed(sys, n) ==> !Flag(sys, n, m);
  }

  lemma AckWhenQuiet(cfg: Config, sys: System, n: Name, m: Name)
    requires Inv(cfg, sys) && AckFor(n, m) in sys.net
    ensures forall k :: Informed(Apply(sys, Deliver(AckFor(n, m))), k) ==> Informed(sys, k)
    ensures Apply(sys, Deliver(AckFor(n, m))).sent == sys.sent
  {
    Accepts(cfg, sys, AckFor(n, m));
    DeliverShape(sys, AckFor(n, m));
  }

  lemma DeliverWhenQuiet(cfg: Config, sys: System, p: Packet)
    requires Inv(cfg, sys) && cfg.round.AckDeliv? && Quiescent(sys) && p in sys.net
    ensures Quiescent(Apply(sys, Deliver(p))) && Apply(sys, Deliver(p)).sent == sys.sent
  {
    assert PacketOk(cfg, sys.nodes, p);
    if p.message.Broadcast? {
      assert p == Payload(p.from, p.to);
      BroadcastIsAcknowledged(cfg, sys, p.from, p.to);
      BroadcastWhenQuiet(cfg, sys, p.from, p.to);
    } else {
      assert p == AckFor(p.to, p.from);
      AckClearsFlag(cfg, sys, p.to, p.from);
      AckWhenQuiet(cfg, sys, p.to, p.from);
    }
    StillQuiescent(sys, Apply(sys, Deliver(p)));
  }

  lemma StepWhenQuiet(cfg: Config, sys: System, step: Step)
    requires Inv(cfg, sys) && cfg.round.AckDeliv? && Quiescent(sys)
    ensures Quiescent(Apply(sys, step)) && Apply(sys, step).sent == sys.sent
  {
    match step
    case FireTimer(n) => if n in sys.nodes { FireWhenQuiet(cfg, sys, n); }
    case Deliver(p) => if p in sys.net { DeliverWhenQuiet(cfg, sys, p); }
    case _ => StillQuiescent(sys, Apply(sys, step));
  }

  lemma {:induction false} QuiescenceLasts(cfg: Config, sys: System, more: seq<Step>)
    requires Inv(cfg, sys) && cfg.round.AckDeliv? && Quiescent(sys)
    ensures Quiescent(Run(sys, more)) && Run(sys, more).sent == sys.sent
  {
    if more != [] {
      QuiescenceLasts(cfg, sys, more[..|more| - 1]);
      RunKeeps(cfg, sys, more[..|more| - 1]);
      StepWhenQuiet(cfg, Run(sys, more[..|more| - 1]), more[|more| - 1]);
    }
  }

  /**
   * AckDeliv: from every reachable state, whatever has been lost, some continuation informs every node that can be
   * reached from the origin, and after it no Broadcast is ever sent again.
   */
  lemma AckDelivCanStop(cfg: Config, steps: seq<Step>) returns (more: seq<Step>)
    requires ValidConfig(cfg) && cfg.round.AckDeliv?
    ensures
      var sys := Run(Start(cfg), steps + more);
      && (forall m :: Reachable(cfg, m) ==> Informed(sys, m))
      && forall rest :: Quiescent(Run(sys, rest)) && Run(sys, rest).sent == sys.sent
  {
    StartOk(cfg);
    RunKeeps(cfg, Start(cfg), steps);
    more := Quiesce(cfg, Run(Start(cfg), steps));
    RunAppend(Start(cfg), steps, more);
    AckDelivInformsAll(cfg, steps + more);
    RunKeeps(cfg, Start(cfg), steps + more);
    forall rest
      ensures Quiescent(Run(Run(Start(cfg), steps + more), rest))
      ensures Run(Run(Start(cfg), steps + more), rest).sent == Run(Start(cfg), steps + more).sent
    {
      QuiescenceLasts(cfg, Run(Start(cfg), steps + more), rest);
    }
  }
}
