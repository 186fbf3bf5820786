/** The nodes on an arbitrary finite directed graph, over a network that loses, duplicates and reorders. */
module BroadcastProtocol {
  import opened BroadcastNode

  datatype Config = Config(edges: map<Name, set<Name>>, origin: Name, round: Round)

  ghost predicate ValidConfig(cfg: Config) {
    && cfg.origin in cfg.edges
    && forall n :: n in cfg.edges ==> cfg.edges[n] <= cfg.edges.Keys
  }

  datatype Packet = Packet(from: Name, to: Name, message: Message)

  /** `sent` counts the Broadcasts sent along each edge; `delivered` are the edges along which one arrived. */
  datatype System = System(
    nodes: map<Name, Node>,
    net: multiset<Packet>,
    sent: multiset<(Name, Name)>,
    delivered: set<(Name, Name)>)

  datatype Step = FireTimer(node: Name) | Deliver(packet: Packet) | Drop(packet: Packet) | Duplicate(packet: Packet)

  /** The origin has the payload and all its flags set; elsewhere the round decides the flags. */
  function InitNode(cfg: Config, n: Name): Node
    requires n in cfg.edges
  {
    if n == cfg.origin then Node(PAYLOAD, map m | m in cfg.edges[n] :: true, cfg.round)
    else Node("", map m | m in cfg.edges[n] :: (cfg.round.RedunDeliv? || cfg.round.AckDeliv?), cfg.round)
  }

  function Start(cfg: Config): System {
    System(map n | n in cfg.edges :: InitNode(cfg, n), multiset{}, multiset{}, {})
  }

  function Spread(from: Name, to: set<Name>, message: Message): multiset<Packet> {
    multiset(set m | m in to :: Packet(from, m, message))
  }

  function Edges(from: Name, to: set<Name>): multiset<(Name, Name)> {
    multiset(set m | m in to :: (from, m))
  }

  function NetAfter(net: multiset<Packet>, n: Name, outs: seq<OutEvent>): multiset<Packet> {
    if outs != [] && outs[0].Send? then net + Spread(n, outs[0].to, outs[0].message) else net
  }

  function SentAfter(sent: multiset<(Name, Name)>, n: Name, outs: seq<OutEvent>): multiset<(Name, Name)> {
    if outs != [] && outs[0].Send? && outs[0].message.Broadcast? then sent + Edges(n, outs[0].to) else sent
  }

  /** Hands the output of node `n` to the network; a renewed timer does not travel on it. */
  function Post(sys: System, n: Name, node: Node, outs: seq<OutEvent>): System {
    sys.(nodes := sys.nodes[n := node], net := NetAfter(sys.net, n, outs), sent := SentAfter(sys.sent, n, outs))
  }

  predicate Enabled(sys: System, step: Step) {
    match step
    case FireTimer(n) => n in sys.nodes
    case Deliver(p) =>
      p in sys.net && p.to in sys.nodes && (p.message.Ack? ==> sys.nodes[p.to].round.AckDeliv?)
    case Drop(p) => p in sys.net
    case Duplicate(p) => p in sys.net
  }

  /** Steps that are not enabled do nothing. */
  function Apply(sys: System, step: Step): System {
    if !Enabled(sys, step) then sys else
      match step
      case FireTimer(n) => Post(sys, n, Fire(sys.nodes[n]), FireEvents(sys.nodes[n]))
      case Deliver(p) =>
        var rest := sys.(net := sys.net - multiset{p},
                         delivered := if p.message.Broadcast? then sys.delivered + {(p.from, p.to)} else sys.delivered);
        var node := sys.nodes[p.to];
        Post(rest, p.to, Take(node, p.from, p.message), TakeEvents(node, p.from, p.message))
      case Drop(p) => sys.(net := sys.net - multiset{p})
      case Duplicate(p) => sys.(net := sys.net + multiset{p})
  }

  function Run(sys: System, steps: seq<Step>): System {
    if steps == [] then sys else Apply(Run(sys, steps[..|steps| - 1]), steps[|steps| - 1])
  }

  predicate Informed(sys: System, n: Name) {
    n in sys.nodes && sys.nodes[n].log == PAYLOAD
  }

  /** Node `n` still means to broadcast to its neighbour `m`. */
  predicate Flag(sys: System, n: Name, m: Name) {
    n in sys.nodes && m in sys.nodes[n].neighbours && sys.nodes[n].neighbours[m]
  }

  lemma SpreadMembers(from: Name, to: set<Name>, message: Message)
    ensures forall p :: p in Spread(from, to, message) <==> p.from == from && p.to in to && p.message == message
  {
    forall p
      ensures p in Spread(from, to, message) <==> p.from == from && p.to in to && p.message == message
    {
      assert p == Packet(p.from, p.to, p.message);
    }
  }

  // ---- The deployment of the tests ----

  function Deployment(round: Round): Config {
    Config(if round.ClassicDeliv? then map["A" := {"B", "C"}, "B" := {"A", "C"}, "C" := {"A", "B"}]
           else map["A" := {"B", "C"}, "B" := {"C"}, "C" := {"B"}],
           "A", round)
  }

  lemma NamesDiffer()
    ensures "A" != "B" && "A" != "C" && "B" != "C"
  {
    assert "A"[0] != "B"[0] && "A"[0] != "C"[0] && "B"[0] != "C"[0];
  }

  lemma DeployedNodes(round: Round)
    ensures InitNode(Deployment(round), "A") == NewNodeA(round)
    ensures InitNode(Deployment(round), "B") == NewNode(round, "C")
    ensures InitNode(Deployment(round), "C") == NewNode(round, "B")
  {
    NamesDiffer();
    assert InitNode(Deployment(round), "A").neighbours == NewNodeA(round).neighbours;
    assert InitNode(Deployment(round), "B").neighbours == NewNode(round, "C").neighbours;
    assert InitNode(Deployment(round), "C").neighbours == NewNode(round, "B").neighbours;
  }

  /**
   * On the three nodes of the tests the initial state is what the constructors build: only A has the payload and
   * means to send it, and in RedunDeliv and AckDeliv B and C mean to pass it on.
   */
  lemma StartIsDeployment(round: Round)
    ensures ValidConfig(Deployment(round))
    ensures Start(Deployment(round)).nodes.Keys == {"A", "B", "C"}
    ensures Start(Deployment(round)).nodes["A"] == NewNodeA(round)
    ensures Start(Deployment(round)).nodes["B"] == NewNode(round, "C")
    ensures Start(Deployment(round)).nodes["C"] == NewNode(round, "B")
    ensures forall n :: n in {"A", "B", "C"} ==> Informed(Start(Deployment(round)), n) == (n == "A")
    ensures Start(Deployment(round)).nodes["A"].log == "Hello world!"
    ensures Flag(Start(Deployment(round)), "A", "B") && Flag(Start(Deployment(round)), "A", "C")
    ensures Flag(Start(Deployment(round)), "B", "C") == Flag(Start(Deployment(round)), "C", "B")
         == (round.RedunDeliv? || round.AckDeliv?)
  {
    DeployedNodes(round);
    NamesDiffer();
  }

  // ---- The invariant ----

  ghost predicate NodeOk(cfg: Config, n: Name, node: Node) {
    && n in cfg.edges
    && node.round == cfg.round
    && node.neighbours.Keys == cfg.edges[n]
    && (node.log == "" || node.log == PAYLOAD)
    && (n == cfg.origin ==> node.log == PAYLOAD)
    && (cfg.round.RedunDeliv? ==> forall m :: m in node.neighbours ==> node.neighbours[m])
    && (cfg.round.RetryDeliv? ==> forall m :: m in node.neighbours ==> (node.neighbours[m] <==> n == cfg.origin))
    && (cfg.round.SimpleDeliv? || cfg.round.ClassicDeliv? ==>
         forall m :: m in node.neighbours && node.neighbours[m] ==> n == cfg.origin)
  }

  ghost predicate NodesOk(cfg: Config, nodes: map<Name, Node>) {
    && nodes.Keys == cfg.edges.Keys
    && forall n :: n in nodes ==> NodeOk(cfg, n, nodes[n])
  }

  /** Only informed nodes send: the payload to their neighbours, acknowledgements to their predecessors. */
  ghost predicate PacketOk(cfg: Config, nodes: map<Name, Node>, p: Packet) {
    && p.from in nodes && p.to in nodes && p.from in cfg.edges && p.to in cfg.edges
    && nodes[p.from].log == PAYLOAD
    && match p.message
       case Broadcast(data) => data == PAYLOAD && p.to in cfg.edges[p.from]
       case Ack => cfg.round.AckDeliv? && p.from in cfg.edges[p.to]
  }

  ghost predicate NetOk(cfg: Config, nodes: map<Name, Node>, net: multiset<Packet>) {
    forall p :: p in net ==> PacketOk(cfg, nodes, p)
  }

  /** In the AckDeliv round a cleared flag means that the neighbour has the log. */
  ghost predicate FlagsOk(cfg: Config, nodes: map<Name, Node>) {
    cfg.round.AckDeliv? ==>
      forall n, m :: n in nodes && m in nodes[n].neighbours && !nodes[n].neighbours[m] ==>
        m in nodes && nodes[m].log == PAYLOAD
  }

  ghost predicate Inv(cfg: Config, sys: System) {
    ValidConfig(cfg) && NodesOk(cfg, sys.nodes) && NetOk(cfg, sys.nodes, sys.net) && FlagsOk(cfg, sys.nodes)
  }

  lemma StartOk(cfg: Config)
    requires ValidConfig(cfg)
    ensures Inv(cfg, Start(cfg))
  {
  }

  /** Logs are never lost. */
  ghost predicate LogsGrow(nodes: map<Name, Node>, nodes': map<Name, Node>) {
    && nodes'.Keys == nodes.Keys
    && forall n :: n in nodes && nodes[n].log == PAYLOAD ==> nodes'[n].log == PAYLOAD
  }

  lemma NetGrows(cfg: Config, nodes: map<Name, Node>, nodes': map<Name, Node>, net: multiset<Packet>)
    requires NetOk(cfg, nodes, net) && LogsGrow(nodes, nodes')
    ensures NetOk(cfg, nodes', net)
  {
    forall p | p in net
      ensures PacketOk(cfg, nodes', p)
    {
      assert PacketOk(cfg, nodes, p);
    }
  }

  lemma FireNodes(cfg: Config, nodes: map<Name, Node>, n: Name)
    requires n in nodes && NodesOk(cfg, nodes) && FlagsOk(cfg, nodes)
    ensures
      var nodes' := nodes[n := Fire(nodes[n])];
      NodesOk(cfg, nodes') && LogsGrow(nodes, nodes') && FlagsOk(cfg, nodes')
  {
    assert NodeOk(cfg, n, nodes[n]);
    assert NodeOk(cfg, n, Fire(nodes[n]));
  }

  lemma FireNet(cfg: Config, nodes: map<Name, Node>, n: Name, nodes': map<Name, Node>, net: multiset<Packet>)
    requires ValidConfig(cfg) && n in nodes && NodeOk(cfg, n, nodes[n])
    requires NetOk(cfg, nodes, net) && LogsGrow(nodes, nodes') && nodes.Keys == cfg.edges.Keys
    ensures NetOk(cfg, nodes', NetAfter(net, n, FireEvents(nodes[n])))
  {
    NetGrows(cfg, nodes, nodes', net);
    assert NetOk(cfg, nodes', Spread(n, Targets(nodes[n]), Broadcast(nodes[n].log)));
  }

  lemma FireKeeps(cfg: Config, sys: System, n: Name)
    requires Inv(cfg, sys) && n in sys.nodes
    ensures Inv(cfg, Apply(sys, FireTimer(n))) && LogsGrow(sys.nodes, Apply(sys, FireTimer(n)).nodes)
  {
    FireNodes(cfg, sys.nodes, n);
    FireNet(cfg, sys.nodes, n, sys.nodes[n := Fire(sys.nodes[n])], sys.net);
  }

  lemma DeliverNodes(cfg: Config, sys: System, p: Packet)
    requires Inv(cfg, sys) && p in sys.net
    ensures
      var nodes' := sys.nodes[p.to := Take(sys.nodes[p.to], p.from, p.message)];
      NodesOk(cfg, nodes') && LogsGrow(sys.nodes, nodes') && FlagsOk(cfg, nodes')
  {
    assert PacketOk(cfg, sys.nodes, p);
    assert NodeOk(cfg, p.to, sys.nodes[p.to]);
    assert NodeOk(cfg, p.to, Take(sys.nodes[p.to], p.from, p.message));
  }

  /** Whatever a node sends on a delivery is again a legal packet. */
  lemma TakeSends(cfg: Config, nodes: map<Name, Node>, n: Name, from: Name, message: Message)
    requires ValidConfig(cfg) && NodesOk(cfg, nodes) && PacketOk(cfg, nodes, Packet(from, n, message))
    ensures
      var outs := TakeEvents(nodes[n], from, message);
      var nodes' := nodes[n := Take(nodes[n], from, message)];
      forall o :: o in outs && o.Send? ==> NetOk(cfg, nodes', Spread(n, o.to, o.message))
  {
    assert NodeOk(cfg, n, nodes[n]);
    assert NodeOk(cfg, from, nodes[from]);
  }

  lemma DeliverNet(cfg: Config, sys: System, p: Packet)
    requires Inv(cfg, sys) && p in sys.net && Enabled(sys, Deliver(p))
    ensures NetOk(cfg, sys.nodes[p.to := Take(sys.nodes[p.to], p.from, p.message)], Apply(sys, Deliver(p)).net)
  {
    assert PacketOk(cfg, sys.nodes, p);
    DeliverNodes(cfg, sys, p);
    NetGrows(cfg, sys.nodes, sys.nodes[p.to := Take(sys.nodes[p.to], p.from, p.message)], sys.net);
    TakeSends(cfg, sys.nodes, p.to, p.from, p.message);
  }

  lemma DeliverKeeps(cfg: Config, sys: System, p: Packet)
    requires Inv(cfg, sys) && p in sys.net
    ensures Enabled(sys, Deliver(p))
    ensures Inv(cfg, Apply(sys, Deliver(p))) && LogsGrow(sys.nodes, Apply(sys, Deliver(p)).nodes)
  {
    assert PacketOk(cfg, sys.nodes, p);
    assert NodeOk(cfg, p.to, sys.nodes[p.to]);
    DeliverNodes(cfg, sys, p);
    DeliverNet(cfg, sys, p);
  }

  lemma StepKeeps(cfg: Config, sys: System, step: Step)
    requires Inv(cfg, sys)
    ensures Inv(cfg, Apply(sys, step)) && LogsGrow(sys.nodes, Apply(sys, step).nodes)
  {
    match step
    case FireTimer(n) => if n in sys.nodes { FireKeeps(cfg, sys, n); }
    case Deliver(p) => if p in sys.net { DeliverKeeps(cfg, sys, p); }
    case _ =>
  }

  lemma {:induction false} RunKeeps(cfg: Config, sys: System, steps: seq<Step>)
    requires Inv(cfg, sys)
    ensures Inv(cfg, Run(sys, steps)) && LogsGrow(sys.nodes, Run(sys, steps).nodes)
  {
    if steps != [] {
      RunKeeps(cfg, sys, steps[..|steps| - 1]);
      StepKeeps(cfg, Run(sys, steps[..|steps| - 1]), steps[|steps| - 1]);
    }
  }

  /** No reachable state hands a node an acknowledgement that it would panic on. */
  lemma NoUnexpectedAck(cfg: Config, steps: seq<Step>, p: Packet)
    requires ValidConfig(cfg) && p in Run(Start(cfg), steps).net
    ensures Enabled(Run(Start(cfg), steps), Deliver(p))
  {
    StartOk(cfg);
    RunKeeps(cfg, Start(cfg), steps);
    DeliverKeeps(cfg, Run(Start(cfg), steps), p);
  }

  // ---- Reachability ----

  /** A path along neighbour edges that starts at `from`. */
  predicate Path(cfg: Config, from: Name, path: seq<Name>) {
    && path != [] && path[0] == from
    && forall i :: 0 <= i < |path| - 1 ==> path[i] in cfg.edges && path[i + 1] in cfg.edges[path[i]]
  }

  ghost predicate Reachable(cfg: Config, m: Name) {
    exists path :: Path(cfg, cfg.origin, path) && path[|path| - 1] == m
  }

  ghost predicate Quiescent(sys: System) {
    forall n, m :: Informed(sys, n) ==> !Flag(sys, n, m)
  }

  lemma {:induction false} QuiescentPath(cfg: Config, sys: System, path: seq<Name>)
    requires Inv(cfg, sys) && cfg.round.AckDeliv? && Quiescent(sys)
    requires Path(cfg, cfg.origin, path)
    ensures Informed(sys, path[|path| - 1])
  {
    if |path| == 1 {
      assert NodeOk(cfg, cfg.origin, sys.nodes[cfg.origin]);
    } else {
      var front := path[..|path| - 1];
      QuiescentPath(cfg, sys, front);
      var n, m := front[|front| - 1], path[|path| - 1];
      assert path[|front| - 1] == n && path[|front|] == m;
      assert NodeOk(cfg, n, sys.nodes[n]);
      assert !Flag(sys, n, m);
    }
  }

  /**
   * AckDeliv: a cleared flag means that the neighbour has the log, and once no informed node has a flag
   * left, every node reachable from the origin has it.
   */
  lemma AckDelivInformsAll(cfg: Config, steps: seq<Step>)
    requires ValidConfig(cfg) && cfg.round.AckDeliv?
    ensures
      var sys := Run(Start(cfg), steps);
      && (forall n, m :: n in cfg.edges && m in cfg.edges[n] && !Flag(sys, n, m) ==> Informed(sys, m))
      && (Quiescent(sys) ==> forall m :: Reachable(cfg, m) ==> Informed(sys, m))
  {
    StartOk(cfg);
    RunKeeps(cfg, Start(cfg), steps);
    var sys := Run(Start(cfg), steps);
    forall n, m | n in cfg.edges && m in cfg.edges[n] && !Flag(sys, n, m)
      ensures Informed(sys, m)
    {
      assert NodeOk(cfg, n, sys.nodes[n]);
    }
    if Quiescent(sys) {
      forall m | Reachable(cfg, m)
        ensures Informed(sys, m)
      {
        var path :| Path(cfg, cfg.origin, path) && path[|path| - 1] == m;
        QuiescentPath(cfg, sys, path);
      }
    }
  }
}
