/** Which nodes can still get the payload from a reachable state, round by round. */
module BroadcastDelivery {
  import opened BroadcastNode
  import opened BroadcastProtocol
  import BroadcastCounts

  ghost predicate CanInform(sys: System, m: Name) {
    exists more :: Informed(Run(sys, more), m)
  }

  lemma {:induction false} RunAppend(sys: System, first: seq<Step>, second: seq<Step>)
    ensures Run(sys, first + second) == Run(Run(sys, first), second)
  {
    if second == [] {
      assert first + second == first;
    } else {
      var front := second[..|second| - 1];
      RunAppend(sys, first, front);
      assert (first + second)[..|first + second| - 1] == first + front;
    }
  }

  lemma RunSnoc(sys: System, steps: seq<Step>, step: Step)
    ensures Run(sys, steps + [step]) == Apply(Run(sys, steps), step)
  {
    assert (steps + [step])[..|steps|] == steps;
  }

  // ---- One edge ----

  function Payload(n: Name, m: Name): Packet {
    Packet(n, m, Broadcast(PAYLOAD))
  }

  lemma FireSends(sys: System, n: Name, m: Name)
    requires Informed(sys, n) && Flag(sys, n, m)
    ensures Payload(n, m) in Apply(sys, FireTimer(n)).net
    ensures forall k :: Informed(Apply(sys, FireTimer(n)), k) <==> Informed(sys, k)
  {
    assert m in Targets(sys.nodes[n]);
    SpreadMembers(n, Targets(sys.nodes[n]), Broadcast(PAYLOAD));
  }

  lemma DeliverInforms(cfg: Config, sys: System, n: Name, m: Name)
    requires Inv(cfg, sys) && Payload(n, m) in sys.net
    ensures forall k :: Informed(Apply(sys, Deliver(Payload(n, m))), k) <==> Informed(sys, k) || k == m
  {
    assert PacketOk(cfg, sys.nodes, Payload(n, m));
  }

  lemma InformNext(cfg: Config, sys: System, steps: seq<Step>, n: Name, m: Name) returns (more: seq<Step>)
    requires Inv(cfg, sys) && Informed(Run(sys, steps), n) && Flag(Run(sys, steps), n, m)
    ensures Informed(Run(sys, more), m)
  {
    var fire := steps + [FireTimer(n)];
    FireSends(Run(sys, steps), n, m);
    RunSnoc(sys, steps, FireTimer(n));
    RunKeeps(cfg, sys, fire);
    DeliverInforms(cfg, Run(sys, fire), n, m);
    RunSnoc(sys, fire, Deliver(Payload(n, m)));
    more := fire + [Deliver(Payload(n, m))];
  }

  // ---- The rounds that keep sending ----

  lemma FlagOrInformed(cfg: Config, sys: System, n: Name, m: Name)
    requires Inv(cfg, sys) && n in cfg.edges && m in cfg.edges[n]
    requires cfg.round.RedunDeliv? || cfg.round.AckDeliv?
    ensures Flag(sys, n, m) || Informed(sys, m)
  {
    assert NodeOk(cfg, n, sys.nodes[n]);
  }

  lemma OriginInformed(cfg: Config, sys: System)
    requires Inv(cfg, sys)
    ensures Informed(sys, cfg.origin)
  {
    assert NodeOk(cfg, cfg.origin, sys.nodes[cfg.origin]);
  }

  lemma {:induction false} InformAlong(cfg: Config, sys: System, path: seq<Name>) returns (more: seq<Step>)
    requires Inv(cfg, sys) && Path(cfg, cfg.origin, path)
    requires cfg.round.RedunDeliv? || cfg.round.AckDeliv?
    ensures Informed(Run(sys, more), path[|path| - 1])
  {
    if |path| == 1 {
      more := [];
      OriginInformed(cfg, sys);
    } else {
      var front, m := path[..|path| - 1], path[|path| - 1];
      var n := path[|path| - 2];
      more := InformAlong(cfg, sys, front);
      assert front[|front| - 1] == n && m == path[|path| - 2 + 1];
      RunKeeps(cfg, sys, more);
      FlagOrInformed(cfg, Run(sys, more), n, m);
      if !Informed(Run(sys, more), m) {
        more := InformNext(cfg, sys, more, n, m);
      }
    }
  }

  lemma InformedIsReachable(cfg: Config, steps: seq<Step>, m: Name)
    requires ValidConfig(cfg) && Informed(Run(Start(cfg), steps), m)
    ensures Reachable(cfg, m)
  {
    BroadcastCounts.InformedHasChain(cfg, steps, m);
  }

  /** RedunDeliv and AckDeliv: from every reachable state exactly the nodes reachable from the origin can be informed. */
  lemma ResendingReachesAll(cfg: Config, steps: seq<Step>, m: Name)
    requires ValidConfig(cfg) && (cfg.round.RedunDeliv? || cfg.round.AckDeliv?)
    ensures CanInform(Run(Start(cfg), steps), m) <==> Reachable(cfg, m)
  {
    var sys := Run(Start(cfg), steps);
    StartOk(cfg);
    RunKeeps(cfg, Start(cfg), steps);
    if more :| Informed(Run(sys, more), m) {
      RunAppend(Start(cfg), steps, more);
      InformedIsReachable(cfg, steps + more, m);
    }
    if path :| Path(cfg, cfg.origin, path) && path[|path| - 1] == m {
      var more := InformAlong(cfg, sys, path);
    }
  }

  // ---- The round in which only the origin keeps sending ----

  ghost predicate OnlyOriginSends(cfg: Config, net: multiset<Packet>) {
    forall p :: p in net ==> p.from == cfg.origin
  }

  ghost predicate OnlyNeighboursInformed(cfg: Config, sys: System)
    requires cfg.origin in cfg.edges
  {
    forall m :: Informed(sys, m) ==> m == cfg.origin || m in cfg.edges[cfg.origin]
  }

  lemma FireStar(cfg: Config, sys: System, n: Name)
    requires n in sys.nodes && NodeOk(cfg, n, sys.nodes[n]) && (cfg.round.RetryDeliv? || cfg.round.SimpleDeliv?)
    requires OnlyOriginSends(cfg, sys.net)
    ensures OnlyOriginSends(cfg, Apply(sys, FireTimer(n)).net)
    ensures forall m :: Informed(Apply(sys, FireTimer(n)), m) ==> Informed(sys, m)
  {
    SpreadMembers(n, Targets(sys.nodes[n]), Broadcast(sys.nodes[n].log));
  }

  lemma DeliverStar(cfg: Config, sys: System, p: Packet)
    requires p in sys.net && PacketOk(cfg, sys.nodes, p) && NodeOk(cfg, p.to, sys.nodes[p.to])
    requires (cfg.round.RetryDeliv? || cfg.round.SimpleDeliv?) && OnlyOriginSends(cfg, sys.net)
    ensures OnlyOriginSends(cfg, Apply(sys, Deliver(p)).net)
    ensures forall m :: Informed(Apply(sys, Deliver(p)), m) ==>
      Informed(sys, m) || (cfg.origin in cfg.edges && m in cfg.edges[cfg.origin])
  {
  }

  lemma StepStar(cfg: Config, sys: System, step: Step)
    requires Inv(cfg, sys) && (cfg.round.RetryDeliv? || cfg.round.SimpleDeliv?)
    requires OnlyOriginSends(cfg, sys.net) && OnlyNeighboursInformed(cfg, sys)
    ensures OnlyOriginSends(cfg, Apply(sys, step).net) && OnlyNeighboursInformed(cfg, Apply(sys, step))
  {
    match step
    case FireTimer(n) =>
      if n in sys.nodes {
        assert NodeOk(cfg, n, sys.nodes[n]);
        FireStar(cfg, sys, n);
      }
    case Deliver(p) =>
      if p in sys.net {
        assert PacketOk(cfg, sys.nodes, p);
        assert NodeOk(cfg, p.to, sys.nodes[p.to]);
        DeliverStar(cfg, sys, p);
      }
    case _ =>
  }

  lemma {:induction false} RunStar(cfg: Config, steps: seq<Step>)
    requires ValidConfig(cfg) && (cfg.round.RetryDeliv? || cfg.round.SimpleDeliv?)
    ensures
      var sys := Run(Start(cfg), steps);
      Inv(cfg, sys) && OnlyOriginSends(cfg, sys.net) && OnlyNeighboursInformed(cfg, sys)
  {
    if steps == [] {
      StartOk(cfg);
    } else {
      var sys := Run(Start(cfg), steps[..|steps| - 1]);
      RunStar(cfg, steps[..|steps| - 1]);
      StepStar(cfg, sys, steps[|steps| - 1]);
      StepKeeps(cfg, sys, steps[|steps| - 1]);
    }
  }

  /** RetryDeliv: from every reachable state exactly the origin and its neighbours can be informed. */
  lemma RetryingReachesNeighbours(cfg: Config, steps: seq<Step>, m: Name)
    requires ValidConfig(cfg) && cfg.round.RetryDeliv?
    ensures CanInform(Run(Start(cfg), steps), m) <==> m == cfg.origin || m in cfg.edges[cfg.origin]
  {
    var sys := Run(Start(cfg), steps);
    RunStar(cfg, steps);
    OriginInformed(cfg, sys);
    assert sys == Run(sys, []);
    if more :| Informed(Run(sys, more), m) {
      RunAppend(Start(cfg), steps, more);
      RunStar(cfg, steps + more);
    }
    if m in cfg.edges[cfg.origin] {
      assert NodeOk(cfg, cfg.origin, sys.nodes[cfg.origin]);
      var more := InformNext(cfg, sys, [], cfg.origin, m);
    }
  }

  // ---- The rounds that send once ----

  /** The edge from `n` to `m` can still carry the payload: it is under way, or the origin has not sent it yet. */
  ghost predicate Live(cfg: Config, sys: System, n: Name, m: Name) {
    Payload(n, m) in sys.net || (n == cfg.origin && Flag(sys, n, m))
  }

  /** Uninformed nodes, each a neighbour of the one before; without forwarding there is only one. */
  predicate Fresh(cfg: Config, sys: System, path: seq<Name>) {
    && path != [] && (cfg.round.SimpleDeliv? ==> |path| == 1)
    && (forall i :: 0 <= i < |path| ==> path[i] in sys.nodes && !Informed(sys, path[i]))
    && (forall i :: 0 <= i < |path| - 1 ==> path[i] in cfg.edges && path[i + 1] in cfg.edges[path[i]])
  }

  /** A live edge leads along uninformed nodes to `m`. */
  ghost predicate Hope(cfg: Config, sys: System, m: Name) {
    || Informed(sys, m)
    || exists n, path :: Fresh(cfg, sys, path) && Live(cfg, sys, n, path[0]) && path[|path| - 1] == m
  }

  lemma FreshBefore(cfg: Config, sys: System, sys': System, path: seq<Name>)
    requires LogsGrow(sys.nodes, sys'.nodes) && Fresh(cfg, sys', path)
    ensures Fresh(cfg, sys, path)
  {
    forall i | 0 <= i < |path|
      ensures path[i] in sys.nodes && !Informed(sys, path[i])
    {
      assert path[i] in sys'.nodes && !Informed(sys', path[i]);
    }
  }

  lemma FireLive(cfg: Config, sys: System, k: Name, n: Name, m: Name)
    requires k in sys.nodes && NodeOk(cfg, k, sys.nodes[k]) && BroadcastCounts.SendsOnce(cfg.round)
    requires Live(cfg, Apply(sys, FireTimer(k)), n, m)
    ensures Live(cfg, sys, n, m)
  {
    SpreadMembers(k, Targets(sys.nodes[k]), Broadcast(sys.nodes[k].log));
  }

  lemma DeliverLive(cfg: Config, sys: System, p: Packet, n: Name, m: Name)
    requires p in sys.net && PacketOk(cfg, sys.nodes, p) && NodeOk(cfg, p.to, sys.nodes[p.to])
    requires BroadcastCounts.SendsOnce(cfg.round)
    requires Live(cfg, Apply(sys, Deliver(p)), n, m) && !Live(cfg, sys, n, m)
    ensures cfg.round.ClassicDeliv? && p.to == n && p.message == Broadcast(PAYLOAD)
    ensures m in cfg.edges[n] && !Informed(sys, n)
  {
    SpreadMembers(p.to, sys.nodes[p.to].neighbours.Keys, p.message);
  }

  /** A live edge was live before the step, or starts at a node that the step has just informed. */
  lemma LiveBefore(cfg: Config, sys: System, step: Step, n: Name, m: Name)
    requires Inv(cfg, sys) && BroadcastCounts.SendsOnce(cfg.round)
    requires Live(cfg, Apply(sys, step), n, m) && !Live(cfg, sys, n, m)
    ensures cfg.round.ClassicDeliv? && step.Deliver? && step.packet in sys.net
    ensures step.packet == Payload(step.packet.from, n)
    ensures n in cfg.edges && m in cfg.edges[n] && n in sys.nodes && !Informed(sys, n)
  {
    match step
    case FireTimer(k) =>
      if k in sys.nodes {
        assert NodeOk(cfg, k, sys.nodes[k]);
        FireLive(cfg, sys, k, n, m);
      }
    case Deliver(p) =>
      if p in sys.net {
        assert PacketOk(cfg, sys.nodes, p);
        assert NodeOk(cfg, p.to, sys.nodes[p.to]);
        DeliverLive(cfg, sys, p, n, m);
      }
    case _ =>
  }

  lemma FreshCons(cfg: Config, sys: System, n: Name, path: seq<Name>)
    requires Fresh(cfg, sys, path) && !cfg.round.SimpleDeliv?
    requires n in sys.nodes && !Informed(sys, n) && n in cfg.edges && path[0] in cfg.edges[n]
    ensures Fresh(cfg, sys, [n] + path) && ([n] + path)[|path|] == path[|path| - 1]
  {
    var longer := [n] + path;
    forall i | 0 <= i < |longer| - 1
      ensures longer[i] in cfg.edges && longer[i + 1] in cfg.edges[longer[i]]
    {
      assert longer[i + 1] == path[i];
      assert i > 0 ==> longer[i] == path[i - 1] && path[i] == path[i - 1 + 1];
    }
  }

  lemma HopeIntro(cfg: Config, sys: System, n: Name, path: seq<Name>)
    requires Fresh(cfg, sys, path) && Live(cfg, sys, n, path[0])
    ensures Hope(cfg, sys, path[|path| - 1])
  {
  }

  lemma HopeAlong(cfg: Config, sys: System, step: Step, n: Name, path: seq<Name>)
    requires Inv(cfg, sys) && BroadcastCounts.SendsOnce(cfg.round)
    requires Fresh(cfg, sys, path) && Live(cfg, Apply(sys, step), n, path[0])
    ensures Hope(cfg, sys, path[|path| - 1])
  {
    if Live(cfg, sys, n, path[0]) {
      HopeIntro(cfg, sys, n, path);
    } else {
      LiveBefore(cfg, sys, step, n, path[0]);
      FreshCons(cfg, sys, n, path);
      HopeIntro(cfg, sys, step.packet.from, [n] + path);
    }
  }

  lemma HopeBefore(cfg: Config, sys: System, step: Step, m: Name)
    requires Inv(cfg, sys) && BroadcastCounts.SendsOnce(cfg.round)
    requires Hope(cfg, Apply(sys, step), m)
    ensures Hope(cfg, sys, m)
  {
    var sys' := Apply(sys, step);
    if Informed(sys', m) {
      if !Informed(sys, m) {
        BroadcastCounts.NewlyInformed(cfg, sys, step, m);
        assert PacketOk(cfg, sys.nodes, step.packet);
        assert Fresh(cfg, sys, [m]) && Live(cfg, sys, step.packet.from, [m][0]);
      }
    } else {
      var n, path :| Fresh(cfg, sys', path) && Live(cfg, sys', n, path[0]) && path[|path| - 1] == m;
      StepKeeps(cfg, sys, step);
      FreshBefore(cfg, sys, sys', path);
      HopeAlong(cfg, sys, step, n, path);
    }
  }

  lemma {:induction false} HopeNeverReturns(cfg: Config, sys: System, more: seq<Step>, m: Name)
    requires Inv(cfg, sys) && BroadcastCounts.SendsOnce(cfg.round)
    requires Hope(cfg, Run(sys, more), m)
    ensures Hope(cfg, sys, m)
  {
    if more != [] {
      var front := more[..|more| - 1];
      RunKeeps(cfg, sys, front);
      HopeBefore(cfg, Run(sys, front), more[|more| - 1], m);
      HopeNeverReturns(cfg, sys, front, m);
    }
  }

  /** Puts the payload for a live edge under way, informing nobody. */
  lemma Underway(cfg: Config, sys: System, n: Name, m: Name) returns (more: seq<Step>)
    requires Inv(cfg, sys) && Live(cfg, sys, n, m)
    ensures Payload(n, m) in Run(sys, more).net
    ensures forall k :: Informed(Run(sys, more), k) <==> Informed(sys, k)
  {
    more := [];
    if Payload(n, m) !in sys.net {
      OriginInformed(cfg, sys);
      FireSends(sys, n, m);
      RunSnoc(sys, [], FireTimer(n));
      more := [] + [FireTimer(n)];
    }
  }

  /** A newly informed ClassicDeliv node sends to all its neighbours. */
  lemma DeliverForwards(cfg: Config, sys: System, n: Name, m: Name, k: Name)
    requires Inv(cfg, sys) && cfg.round.ClassicDeliv? && Payload(n, m) in sys.net
    requires m in cfg.edges && k in cfg.edges[m] && !Informed(sys, m)
    ensures Payload(m, k) in Apply(sys, Deliver(Payload(n, m))).net
  {
    assert PacketOk(cfg, sys.nodes, Payload(n, m));
    assert NodeOk(cfg, m, sys.nodes[m]);
    SpreadMembers(m, sys.nodes[m].neighbours.Keys, Broadcast(PAYLOAD));
  }

  /** Delivers along the first edge; in ClassicDeliv the payload is then under way to the next node. */
  lemma FirstHop(cfg: Config, sys: System, n: Name, path: seq<Name>) returns (more: seq<Step>)
    requires Inv(cfg, sys) && BroadcastCounts.SendsOnce(cfg.round)
    requires Fresh(cfg, sys, path) && Live(cfg, sys, n, path[0])
    ensures Inv(cfg, Run(sys, more))
    ensures forall k :: Informed(Run(sys, more), k) <==> Informed(sys, k) || k == path[0]
    ensures |path| > 1 ==> Payload(path[0], path[1]) in Run(sys, more).net
  {
    var first := Underway(cfg, sys, n, path[0]);
    var deliver := Deliver(Payload(n, path[0]));
    RunKeeps(cfg, sys, first);
    DeliverInforms(cfg, Run(sys, first), n, path[0]);
    if |path| > 1 {
      DeliverForwards(cfg, Run(sys, first), n, path[0], path[1]);
    }
    more := first + [deliver];
    RunSnoc(sys, first, deliver);
    RunKeeps(cfg, sys, more);
  }

  lemma FreshTail(cfg: Config, sys: System, sys': System, path: seq<Name>)
    requires Fresh(cfg, sys, path) && |path| > 1 && path[0] !in path[1..]
    requires sys'.nodes.Keys == sys.nodes.Keys
    requires forall k :: Informed(sys', k) <==> Informed(sys, k) || k == path[0]
    ensures Fresh(cfg, sys', path[1..])
  {
    var tail := path[1..];
    forall i | 0 <= i < |tail|
      ensures tail[i] in sys'.nodes && !Informed(sys', tail[i])
    {
      assert tail[i] == path[i + 1] && tail[i] in tail;
    }
    forall i | 0 <= i < |tail| - 1
      ensures tail[i] in cfg.edges && tail[i + 1] in cfg.edges[tail[i]]
    {
      assert tail[i] == path[i + 1] && tail[i + 1] == path[i + 1 + 1];
    }
  }

  lemma FreshSuffix(cfg: Config, sys: System, path: seq<Name>, j: nat)
    requires Fresh(cfg, sys, path) && j < |path|
    ensures Fresh(cfg, sys, path[j..])
  {
    var tail := path[j..];
    forall i | 0 <= i < |tail| - 1
      ensures tail[i] in cfg.edges && tail[i + 1] in cfg.edges[tail[i]]
    {
      assert tail[i] == path[j + i] && tail[i + 1] == path[j + i + 1];
    }
  }

  lemma {:induction false} InformFresh(cfg: Config, sys: System, n: Name, path: seq<Name>) returns (more: seq<Step>)
    requires Inv(cfg, sys) && BroadcastCounts.SendsOnce(cfg.round)
    requires Fresh(cfg, sys, path) && Live(cfg, sys, n, path[0])
    ensures Informed(Run(sys, more), path[|path| - 1])
    decreases |path|
  {
    if j :| 0 < j < |path| && path[j] == path[0] {
      FreshSuffix(cfg, sys, path, j);
      more := InformFresh(cfg, sys, n, path[j..]);
    } else {
      more := FirstHop(cfg, sys, n, path);
      if |path| > 1 {
        var sys' := Run(sys, more);
        FreshTail(cfg, sys, sys', path);
        var rest := InformFresh(cfg, sys', path[0], path[1..]);
        RunAppend(sys, more, rest);
        more := more + rest;
      }
    }
  }

  /**
   * SimpleDeliv and ClassicDeliv: a node can still get the payload exactly when it has it, or when some edge
   * that can still carry it leads to the node, in ClassicDeliv along uninformed nodes.
   */
  lemma OneShotReachesLive(cfg: Config, steps: seq<Step>, m: Name)
    requires ValidConfig(cfg) && BroadcastCounts.SendsOnce(cfg.round)
    ensures CanInform(Run(Start(cfg), steps), m) <==> Hope(cfg, Run(Start(cfg), steps), m)
  {
    var sys := Run(Start(cfg), steps);
    StartOk(cfg);
    RunKeeps(cfg, Start(cfg), steps);
    assert sys == Run(sys, []);
    if more :| Informed(Run(sys, more), m) {
      HopeNeverReturns(cfg, sys, more, m);
    }
    if n, path :| Fresh(cfg, sys, path) && Live(cfg, sys, n, path[0]) && path[|path| - 1] == m {
      var more := InformFresh(cfg, sys, n, path);
    }
  }
}
