/** How often each edge carries a Broadcast, and how the payload came to every node that has it. */
module BroadcastCounts {
  import opened BroadcastNode
  import opened BroadcastProtocol

  // ---- The rounds that send once ----

  /** What the states of the nodes say about the Broadcasts sent from n to m. */
  function Expected(cfg: Config, nodes: map<Name, Node>, n: Name, m: Name): nat {
    if n !in nodes || m !in nodes[n].neighbours then 0
    else if n == cfg.origin then (if nodes[n].neighbours[m] then 0 else 1)
    else if cfg.round.ClassicDeliv? && nodes[n].log == PAYLOAD then 1 else 0
  }

  ghost predicate CountsOk(cfg: Config, nodes: map<Name, Node>, sent: multiset<(Name, Name)>) {
    forall e: (Name, Name) :: sent[e] == Expected(cfg, nodes, e.0, e.1)
  }

  lemma EdgesCount(from: Name, to: set<Name>, e: (Name, Name))
    ensures Edges(from, to)[e] == if e.0 == from && e.1 in to then 1 else 0
  {
    assert e in (set m | m in to :: (from, m)) <==> e.0 == from && e.1 in to;
  }

  predicate SendsOnce(round: Round) {
    round.SimpleDeliv? || round.ClassicDeliv?
  }

  lemma FireCounts(cfg: Config, nodes: map<Name, Node>, sent: multiset<(Name, Name)>, n: Name)
    requires n in nodes && NodeOk(cfg, n, nodes[n]) && SendsOnce(cfg.round) && CountsOk(cfg, nodes, sent)
    ensures CountsOk(cfg, nodes[n := Fire(nodes[n])], SentAfter(sent, n, FireEvents(nodes[n])))
  {
    forall e: (Name, Name)
      ensures SentAfter(sent, n, FireEvents(nodes[n]))[e] == Expected(cfg, nodes[n := Fire(nodes[n])], e.0, e.1)
    {
      EdgesCount(n, Targets(nodes[n]), e);
    }
  }

  lemma TakeCounts(cfg: Config, nodes: map<Name, Node>, sent: multiset<(Name, Name)>, n: Name, from: Name, data: string)
    requires n in nodes && NodeOk(cfg, n, nodes[n]) && SendsOnce(cfg.round) && CountsOk(cfg, nodes, sent)
    requires data == PAYLOAD
    ensures CountsOk(cfg, nodes[n := Take(nodes[n], from, Broadcast(data))],
                     SentAfter(sent, n, TakeEvents(nodes[n], from, Broadcast(data))))
  {
    var node := nodes[n];
    forall e: (Name, Name)
      ensures SentAfter(sent, n, TakeEvents(node, from, Broadcast(data)))[e]
           == Expected(cfg, nodes[n := Take(node, from, Broadcast(data))], e.0, e.1)
    {
      EdgesCount(n, node.neighbours.Keys, e);
    }
  }

  lemma StepCounts(cfg: Config, sys: System, step: Step)
    requires Inv(cfg, sys) && SendsOnce(cfg.round) && CountsOk(cfg, sys.nodes, sys.sent)
    ensures CountsOk(cfg, Apply(sys, step).nodes, Apply(sys, step).sent)
  {
    if Enabled(sys, step) {
      match step
      case FireTimer(n) =>
        FireCounts(cfg, sys.nodes, sys.sent, n);
      case Deliver(p) =>
        assert PacketOk(cfg, sys.nodes, p);
        TakeCounts(cfg, sys.nodes, sys.sent, p.to, p.from, p.message.data);
      case _ =>
    }
  }

  lemma {:induction false} RunCounts(cfg: Config, steps: seq<Step>)
    requires ValidConfig(cfg) && SendsOnce(cfg.round)
    ensures CountsOk(cfg, Run(Start(cfg), steps).nodes, Run(Start(cfg), steps).sent)
    ensures Inv(cfg, Run(Start(cfg), steps))
  {
    if steps == [] {
      StartOk(cfg);
    } else {
      var sys := Run(Start(cfg), steps[..|steps| - 1]);
      RunCounts(cfg, steps[..|steps| - 1]);
      StepCounts(cfg, sys, steps[|steps| - 1]);
      StepKeeps(cfg, sys, steps[|steps| - 1]);
    }
  }

  /**
   * SimpleDeliv and ClassicDeliv send at most one Broadcast along each edge: the origin along an edge whose
   * flag it has cleared, any other node, in ClassicDeliv only, along all its edges once it has the payload.
   */
  lemma AtMostOneBroadcastPerEdge(cfg: Config, steps: seq<Step>, n: Name, m: Name)
    requires ValidConfig(cfg) && SendsOnce(cfg.round)
    ensures
      var sys := Run(Start(cfg), steps);
      && sys.sent[(n, m)] <= 1
      && (sys.sent[(n, m)] == 1 <==>
            && n in cfg.edges && m in cfg.edges[n]
            && (if n == cfg.origin then !Flag(sys, n, m) else cfg.round.ClassicDeliv? && Informed(sys, n)))
  {
    RunCounts(cfg, steps);
    var sys := Run(Start(cfg), steps);
    assert sys.sent[(n, m)] == Expected(cfg, sys.nodes, (n, m).0, (n, m).1);
    if n in sys.nodes {
      assert NodeOk(cfg, n, sys.nodes[n]);
    }
  }

  // ---- Delivery chains, in every round ----

  /** A chain of delivered Broadcasts from the origin to `m`. */
  predicate Chain(origin: Name, delivered: set<(Name, Name)>, chain: seq<Name>, m: Name) {
    && chain != [] && chain[0] == origin && chain[|chain| - 1] == m
    && forall i :: 0 <= i < |chain| - 1 ==> (chain[i], chain[i + 1]) in delivered
  }

  /** Broadcasts travel only where one was sent, and only along edges. */
  ghost predicate TracesOk(cfg: Config, net: multiset<Packet>, sent: multiset<(Name, Name)>,
                           delivered: set<(Name, Name)>) {
    && (forall p :: p in net && p.message.Broadcast? ==> (p.from, p.to) in sent)
    && (forall e :: e in delivered ==> e in sent && e.0 in cfg.edges && e.1 in cfg.edges[e.0])
  }

  ghost predicate ChainsOk(cfg: Config, sys: System) {
    forall m :: Informed(sys, m) ==> exists chain :: Chain(cfg.origin, sys.delivered, chain, m)
  }

  lemma ChainGrows(origin: Name, delivered: set<(Name, Name)>, delivered': set<(Name, Name)>, chain: seq<Name>,
                   n: Name, m: Name)
    requires Chain(origin, delivered, chain, n) && delivered <= delivered' && (n, m) in delivered'
    ensures Chain(origin, delivered', chain, n) && Chain(origin, delivered', chain + [m], m)
  {
  }

  lemma PostTraces(cfg: Config, net: multiset<Packet>, sent: multiset<(Name, Name)>, delivered: set<(Name, Name)>,
                   n: Name, outs: seq<OutEvent>)
    requires TracesOk(cfg, net, sent, delivered)
    ensures TracesOk(cfg, NetAfter(net, n, outs), SentAfter(sent, n, outs), delivered)
  {
  }

  lemma StepTraces(cfg: Config, sys: System, step: Step)
    requires NetOk(cfg, sys.nodes, sys.net) && TracesOk(cfg, sys.net, sys.sent, sys.delivered)
    ensures TracesOk(cfg, Apply(sys, step).net, Apply(sys, step).sent, Apply(sys, step).delivered)
  {
    if Enabled(sys, step) {
      match step
      case FireTimer(n) =>
        PostTraces(cfg, sys.net, sys.sent, sys.delivered, n, FireEvents(sys.nodes[n]));
      case Deliver(p) =>
        assert PacketOk(cfg, sys.nodes, p);
        PostTraces(cfg, sys.net - multiset{p}, sys.sent,
                   if p.message.Broadcast? then sys.delivered + {(p.from, p.to)} else sys.delivered,
                   p.to, TakeEvents(sys.nodes[p.to], p.from, p.message));
      case _ =>
    }
  }

  /** Only a delivered Broadcast from an informed node informs a node. */
  lemma NewlyInformed(cfg: Config, sys: System, step: Step, m: Name)
    requires NetOk(cfg, sys.nodes, sys.net) && Informed(Apply(sys, step), m) && !Informed(sys, m)
    ensures step.Deliver? && step.packet.to == m && Informed(sys, step.packet.from)
    ensures (step.packet.from, m) in Apply(sys, step).delivered
  {
    if step.Deliver? && step.packet in sys.net {
      assert PacketOk(cfg, sys.nodes, step.packet);
    }
  }

  lemma StepChains(cfg: Config, sys: System, step: Step)
    requires NetOk(cfg, sys.nodes, sys.net) && ChainsOk(cfg, sys)
    ensures ChainsOk(cfg, Apply(sys, step))
  {
    var sys' := Apply(sys, step);
    assert sys.delivered <= sys'.delivered;
    forall m | Informed(sys', m)
      ensures exists chain :: Chain(cfg.origin, sys'.delivered, chain, m)
    {
      if Informed(sys, m) {
        var chain :| Chain(cfg.origin, sys.delivered, chain, m);
        assert Chain(cfg.origin, sys'.delivered, chain, m);
      } else {
        NewlyInformed(cfg, sys, step, m);
        var n := step.packet.from;
        var chain :| Chain(cfg.origin, sys.delivered, chain, n);
        ChainGrows(cfg.origin, sys.delivered, sys'.delivered, chain, n, m);
      }
    }
  }

  lemma StartChains(cfg: Config)
    requires ValidConfig(cfg)
    ensures TracesOk(cfg, multiset{}, multiset{}, {}) && ChainsOk(cfg, Start(cfg))
  {
    assert Chain(cfg.origin, {}, [cfg.origin], cfg.origin);
  }

  lemma {:induction false} RunChains(cfg: Config, steps: seq<Step>)
    requires ValidConfig(cfg)
    ensures
      var sys := Run(Start(cfg), steps);
      Inv(cfg, sys) && TracesOk(cfg, sys.net, sys.sent, sys.delivered) && ChainsOk(cfg, sys)
  {
    if steps == [] {
      StartOk(cfg);
      StartChains(cfg);
    } else {
      var sys := Run(Start(cfg), steps[..|steps| - 1]);
      RunChains(cfg, steps[..|steps| - 1]);
      StepKeeps(cfg, sys, steps[|steps| - 1]);
      StepTraces(cfg, sys, steps[|steps| - 1]);
      StepChains(cfg, sys, steps[|steps| - 1]);
    }
  }

  lemma ChainIsPath(cfg: Config, net: multiset<Packet>, sent: multiset<(Name, Name)>, delivered: set<(Name, Name)>,
                    chain: seq<Name>, m: Name)
    requires TracesOk(cfg, net, sent, delivered) && Chain(cfg.origin, delivered, chain, m)
    ensures Path(cfg, cfg.origin, chain)
    ensures forall i :: 0 <= i < |chain| - 1 ==> (chain[i], chain[i + 1]) in sent
  {
    forall i | 0 <= i < |chain| - 1
      ensures chain[i] in cfg.edges && chain[i + 1] in cfg.edges[chain[i]] && (chain[i], chain[i + 1]) in sent
    {
      assert (chain[i], chain[i + 1]) in delivered;
    }
  }

  /**
   * In every round, every node with the payload got it along a chain of Broadcasts from the origin, each
   * sent along an edge and delivered.
   */
  lemma InformedHasChain(cfg: Config, steps: seq<Step>, m: Name)
    requires ValidConfig(cfg) && Informed(Run(Start(cfg), steps), m)
    ensures
      var sys := Run(Start(cfg), steps);
      exists chain :: && Chain(cfg.origin, sys.delivered, chain, m) && Path(cfg, cfg.origin, chain)
                      && forall i :: 0 <= i < |chain| - 1 ==> (chain[i], chain[i + 1]) in sys.sent
  {
    RunChains(cfg, steps);
    var sys := Run(Start(cfg), steps);
    var chain :| Chain(cfg.origin, sys.delivered, chain, m);
    ChainIsPath(cfg, sys.net, sys.sent, sys.delivered, chain, m);
  }
}
