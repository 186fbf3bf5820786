/** The broadcasting nodes' timers as part of the state: which node can still fire. */
module BroadcastTimers {
  import opened BroadcastNode
  import opened BroadcastProtocol

  /** `pending` are the nodes whose timer is set. */
  datatype Timed = Timed(sys: System, pending: multiset<Name>)

  datatype TimedStep = Expire(node: Name) | Other(step: Step)

  /** Every node sets a timer when it is initialised; in ClassicDeliv only the one with the payload does. */
  function Begin(cfg: Config): Timed {
    Timed(Start(cfg), multiset(if cfg.round.ClassicDeliv? then {cfg.origin} else cfg.edges.Keys))
  }

  function Renewals(sys: System, n: Name): multiset<Name> {
    if n in sys.nodes && RenewTimer in FireEvents(sys.nodes[n]) then multiset{n} else multiset{}
  }

  /** A timer fires if it is pending, and is then pending again only if the node renews it. */
  function Next(t: Timed, step: TimedStep): Timed {
    match step
    case Expire(n) =>
      if n in t.pending
      then Timed(Apply(t.sys, FireTimer(n)), t.pending - multiset{n} + Renewals(t.sys, n))
      else t
    case Other(FireTimer(_)) => t
    case Other(other) => t.(sys := Apply(t.sys, other))
  }

  function RunTimed(t: Timed, steps: seq<TimedStep>): Timed {
    if steps == [] then t else Next(RunTimed(t, steps[..|steps| - 1]), steps[|steps| - 1])
  }

  lemma NextInv(cfg: Config, t: Timed, step: TimedStep)
    requires Inv(cfg, t.sys)
    ensures Inv(cfg, Next(t, step).sys)
  {
    match step
    case Expire(n) => StepKeeps(cfg, t.sys, FireTimer(n));
    case Other(other) => StepKeeps(cfg, t.sys, other);
  }

  lemma {:induction false} TimedInv(cfg: Config, steps: seq<TimedStep>)
    requires ValidConfig(cfg)
    ensures Inv(cfg, RunTimed(Begin(cfg), steps).sys)
  {
    if steps == [] {
      StartOk(cfg);
    } else {
      TimedInv(cfg, steps[..|steps| - 1]);
      NextInv(cfg, RunTimed(Begin(cfg), steps[..|steps| - 1]), steps[|steps| - 1]);
    }
  }

  lemma RenewsUnlessClassic(cfg: Config, sys: System, n: Name)
    requires Inv(cfg, sys) && n in cfg.edges
    ensures Renewals(sys, n) == if cfg.round.ClassicDeliv? then multiset{} else multiset{n}
  {
    assert NodeOk(cfg, n, sys.nodes[n]);
    assert FireEvents(sys.nodes[n])[|FireEvents(sys.nodes[n])| - 1] in FireEvents(sys.nodes[n]);
  }

  /** In every round but ClassicDeliv, every node always has exactly one timer pending. */
  lemma {:induction false} TimersStayPending(cfg: Config, steps: seq<TimedStep>)
    requires ValidConfig(cfg) && !cfg.round.ClassicDeliv?
    ensures RunTimed(Begin(cfg), steps).pending == multiset(cfg.edges.Keys)
  {
    if steps != [] {
      var t, step := RunTimed(Begin(cfg), steps[..|steps| - 1]), steps[|steps| - 1];
      TimersStayPending(cfg, steps[..|steps| - 1]);
      TimedInv(cfg, steps[..|steps| - 1]);
      if step.Expire? && step.node in t.pending {
        RenewsUnlessClassic(cfg, t.sys, step.node);
        assert t.pending - multiset{step.node} + multiset{step.node} == t.pending;
      }
    }
  }

  function Lift(steps: seq<Step>): seq<TimedStep> {
    if steps == [] then [] else
      var step := steps[|steps| - 1];
      Lift(steps[..|steps| - 1]) + [if step.FireTimer? then Expire(step.node) else Other(step)]
  }

  lemma TimedSnoc(t: Timed, steps: seq<TimedStep>, step: TimedStep)
    ensures RunTimed(t, steps + [step]) == Next(RunTimed(t, steps), step)
  {
    assert (steps + [step])[..|steps|] == steps;
  }

  /** So in these rounds the pending timers allow every run in which timers fire at any time. */
  lemma {:induction false} TimersAllowEveryRun(cfg: Config, steps: seq<Step>)
    requires ValidConfig(cfg) && !cfg.round.ClassicDeliv?
    ensures RunTimed(Begin(cfg), Lift(steps)).sys == Run(Start(cfg), steps)
  {
    if steps != [] {
      var front, step := steps[..|steps| - 1], steps[|steps| - 1];
      TimersAllowEveryRun(cfg, front);
      TimersStayPending(cfg, Lift(front));
      TimedInv(cfg, Lift(front));
      TimedSnoc(Begin(cfg), Lift(front), if step.FireTimer? then Expire(step.node) else Other(step));
    }
  }

  predicate Fired(steps: seq<TimedStep>, n: Name) {
    steps != [] && (steps[|steps| - 1] == Expire(n) || Fired(steps[..|steps| - 1], n))
  }

  lemma NextClassic(cfg: Config, t: Timed, step: TimedStep, m: Name)
    requires Inv(cfg, t.sys) && cfg.round.ClassicDeliv?
    requires t.pending == multiset{cfg.origin} || t.pending == multiset{}
    requires Flag(t.sys, cfg.origin, m) ==> cfg.origin in t.pending
    ensures Next(t, step).pending == if step == Expire(cfg.origin) then multiset{} else t.pending
    ensures Flag(Next(t, step).sys, cfg.origin, m) ==> cfg.origin in Next(t, step).pending
  {
    assert NodeOk(cfg, cfg.origin, t.sys.nodes[cfg.origin]);
    RenewsUnlessClassic(cfg, t.sys, cfg.origin);
  }

  /** In ClassicDeliv only the origin's timer is set, and it fires once; while a flag is left it has not fired. */
  lemma {:induction false} ClassicFiresOnce(cfg: Config, steps: seq<TimedStep>, m: Name)
    requires ValidConfig(cfg) && cfg.round.ClassicDeliv?
    ensures
      var t := RunTimed(Begin(cfg), steps);
      && t.pending == (if Fired(steps, cfg.origin) then multiset{} else multiset{cfg.origin})
      && (Flag(t.sys, cfg.origin, m) ==> cfg.origin in t.pending)
  {
    if steps != [] {
      ClassicFiresOnce(cfg, steps[..|steps| - 1], m);
      TimedInv(cfg, steps[..|steps| - 1]);
      NextClassic(cfg, RunTimed(Begin(cfg), steps[..|steps| - 1]), steps[|steps| - 1], m);
    }
  }
}
