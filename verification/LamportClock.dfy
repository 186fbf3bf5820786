/** The logical clocks of the executors' event loops. */
module LamportClock {
  datatype Direction = LogSend | LogResumeContinuation

  datatype Entry = Entry(direction: Direction, message: string, time: int)

  datatype Loop = Loop(time: int, log: seq<Entry>, running: bool)

  datatype Admin = Quit | DumpLog | ResetLog | ResetReactors

  const Initial := Loop(0, [], true)

  function Max(x: int, y: int): int {
    if x < y then y else x
  }

  /** A message from the scheduler: resume at the merged time, answer one tick later. */
  function OnEnvelope(loop: Loop, time: int, message: string, answer: string): Loop {
    var resumed := Max(loop.time, time) + 1;
    loop.(time := resumed + 1,
          log := loop.log + [Entry(LogResumeContinuation, message, resumed), Entry(LogSend, answer, resumed + 1)])
  }

  function OnAdmin(loop: Loop, cmd: Admin): Loop {
    match cmd
    case ResetLog => loop.(time := 0, log := [])
    case Quit => loop.(time := loop.time + 1, running := false)
    case _ => loop.(time := loop.time + 1)
  }

  class LogicalTime {
    var t: int

    constructor ()
      ensures t == 0
    {
      t := 0;
    }

    method Incr()
      modifies this
      ensures t == old(t) + 1
    {
      t := t + 1;
    }

    /** Strictly later than both clocks. */
    method Merge(other: int)
      modifies this
      ensures t == Max(old(t), other) + 1
    {
      var lm := -1;
      if t < other {
        lm := other;
      } else {
        lm := t;
      }
      t := lm + 1;
    }
  }

  class EventLoop {
    const logicalTime: LogicalTime
    var log: seq<Entry>
    var running: bool

    ghost function Model(): Loop
      reads this, logicalTime
    {
      Loop(logicalTime.t, log, running)
    }

    constructor ()
      ensures fresh(logicalTime) && Model() == Initial
    {
      logicalTime := new LogicalTime();
      log, running := [], true;
    }

    method AddToLog(direction: Direction, message: string)
      modifies this`log
      ensures log == old(log) + [Entry(direction, message, logicalTime.t)]
    {
      log := log + [Entry(direction, message, logicalTime.t)];
    }

    /** One message; `answer` is what the reactor replies. The result stamps the outgoing envelope. */
    method Process(time: int, message: string, answer: string) returns (stamp: int)
      modifies this, logicalTime
      ensures Model() == OnEnvelope(old(Model()), time, message, answer)
      ensures stamp == logicalTime.t
    {
      logicalTime.Merge(time);
      AddToLog(LogResumeContinuation, message);
      logicalTime.Incr();
      stamp := logicalTime.t;
      AddToLog(LogSend, answer);
    }

    method ProcessAdmin(cmd: Admin) returns (quit: bool)
      modifies this`log, logicalTime
      ensures logicalTime.t == OnAdmin(old(Model()), cmd).time && log == OnAdmin(old(Model()), cmd).log
      ensures old(running) ==> quit == !OnAdmin(old(Model()), cmd).running
    {
      logicalTime.Incr();
      quit := false;
      match cmd {
        case Quit => quit := true;
        case ResetLog =>
          log := [];
          logicalTime.t := 0;
        case _ =>
      }
    }

    /** One turn of the loop for a command; the loop ends when it is told to quit. */
    method Administer(cmd: Admin)
      requires running
      modifies this, logicalTime
      ensures Model() == OnAdmin(old(Model()), cmd)
    {
      var quit := ProcessAdmin(cmd);
      if quit {
        running := false;
      }
    }
  }

  // ---- Several loops, connected by the scheduler ----

  /**
   * A logged event of some loop. `causes` are the earlier sends on which the scheduler based the envelope
   * that was resumed.
   */
  datatype Event = Event(loop: nat, time: int, sends: bool, causes: set<nat>)

  datatype System = System(loops: map<nat, Loop>, events: seq<Event>)

  datatype Step =
    | Deliver(loop: nat, time: int, message: string, answer: string, causes: set<nat>)
    | Command(loop: nat, cmd: Admin)

  function Start(loops: set<nat>): System {
    System(map l | l in loops :: Initial, [])
  }

  /** A loop runs until it is told to quit; the scheduler stamps an envelope no earlier than its causes. */
  predicate Enabled(sys: System, step: Step) {
    && step.loop in sys.loops && sys.loops[step.loop].running
    && (step.Deliver? ==>
          forall c :: c in step.causes ==> c < |sys.events| && sys.events[c].sends && sys.events[c].time <= step.time)
  }

  function Apply(sys: System, step: Step): System {
    if !Enabled(sys, step) then sys else
      match step
      case Deliver(l, time, message, answer, causes) =>
        var loop' := OnEnvelope(sys.loops[l], time, message, answer);
        System(sys.loops[l := loop'],
               sys.events + [Event(l, loop'.time - 1, false, causes), Event(l, loop'.time, true, {})])
      case Command(l, cmd) => sys.(loops := sys.loops[l := OnAdmin(sys.loops[l], cmd)])
  }

  function Run(sys: System, steps: seq<Step>): System {
    if steps == [] then sys else Apply(Run(sys, steps[..|steps| - 1]), steps[|steps| - 1])
  }

  // ---- Each loop's log is strictly increasing, resets included ----

  ghost predicate Increasing(loop: Loop) {
    && (forall i, j :: 0 <= i < j < |loop.log| ==> loop.log[i].time < loop.log[j].time)
    && (forall i :: 0 <= i < |loop.log| ==> loop.log[i].time <= loop.time)
  }

  lemma OnEnvelopeIncreases(loop: Loop, time: int, message: string, answer: string)
    requires Increasing(loop)
    ensures Increasing(OnEnvelope(loop, time, message, answer))
  {
    var log' := OnEnvelope(loop, time, message, answer).log;
    assert forall i :: 0 <= i < |loop.log| ==> log'[i] == loop.log[i];
  }

  ghost predicate AllIncreasing(loops: map<nat, Loop>) {
    forall l: nat :: l in loops ==> Increasing(loops[l])
  }

  lemma {:induction false} LogsIncrease(loops: set<nat>, steps: seq<Step>)
    ensures AllIncreasing(Run(Start(loops), steps).loops)
  {
    if steps != [] {
      var sys, step := Run(Start(loops), steps[..|steps| - 1]), steps[|steps| - 1];
      LogsIncrease(loops, steps[..|steps| - 1]);
      if Enabled(sys, step) && step.Deliver? {
        assert Increasing(sys.loops[step.loop]);
        OnEnvelopeIncreases(sys.loops[step.loop], step.time, step.message, step.answer);
      }
    }
  }

  // ---- What a log says ----

  /** What loop `l` has been told and has answered since its log was last reset. */
  function Conversation(loops: set<nat>, steps: seq<Step>, l: nat): seq<(string, string)> {
    if steps == [] then [] else
      var front, step := steps[..|steps| - 1], steps[|steps| - 1];
      var told := Conversation(loops, front, l);
      if step.loop != l || !Enabled(Run(Start(loops), front), step) then told
      else if step.Deliver? then told + [(step.message, step.answer)]
      else if step.cmd.ResetLog? then []
      else told
  }

  /** A resumption and, one tick later, the answer, for each message in turn. */
  ghost predicate Records(log: seq<Entry>, told: seq<(string, string)>) {
    && |log| == 2 * |told|
    && forall k :: 0 <= k < |told| ==>
         && log[2 * k].direction.LogResumeContinuation? && log[2 * k].message == told[k].0
         && log[2 * k + 1].direction.LogSend? && log[2 * k + 1].message == told[k].1
         && log[2 * k + 1].time == log[2 * k].time + 1
  }

  lemma RecordsSnoc(loop: Loop, told: seq<(string, string)>, time: int, message: string, answer: string)
    requires Records(loop.log, told)
    ensures Records(OnEnvelope(loop, time, message, answer).log, told + [(message, answer)])
  {
    var log' := OnEnvelope(loop, time, message, answer).log;
    assert forall i :: 0 <= i < |loop.log| ==> log'[i] == loop.log[i];
  }

  lemma StepRecords(sys: System, step: Step, told: seq<(string, string)>)
    requires Enabled(sys, step) && Records(sys.loops[step.loop].log, told)
    ensures Records(Apply(sys, step).loops[step.loop].log,
                    if step.Deliver? then told + [(step.message, step.answer)] else if step.cmd.ResetLog? then [] else told)
  {
    if step.Deliver? {
      RecordsSnoc(sys.loops[step.loop], told, step.time, step.message, step.answer);
    }
  }

  /** Every log, since it was last reset, is the loop's conversation. */
  lemma {:induction false} LogRecordsConversation(loops: set<nat>, steps: seq<Step>, l: nat)
    requires l in loops
    ensures
      var sys := Run(Start(loops), steps);
      l in sys.loops && Records(sys.loops[l].log, Conversation(loops, steps, l))
  {
    if steps != [] {
      var sys, step := Run(Start(loops), steps[..|steps| - 1]), steps[|steps| - 1];
      LogRecordsConversation(loops, steps[..|steps| - 1], l);
      if step.loop == l && Enabled(sys, step) {
        StepRecords(sys, step, Conversation(loops, steps[..|steps| - 1], l));
      }
    }
  }

  /** The clock of loop `l`: two ticks past the later clock for a message, one for a command, and 0 after a reset. */
  function Reading(loops: set<nat>, steps: seq<Step>, l: nat): int {
    if steps == [] then 0 else
      var front, step := steps[..|steps| - 1], steps[|steps| - 1];
      var before := Reading(loops, front, l);
      if step.loop != l || !Enabled(Run(Start(loops), front), step) then before
      else if step.Deliver? then (if before < step.time then step.time else before) + 2
      else if step.cmd.ResetLog? then 0
      else before + 1
  }

  predicate ToldToQuit(steps: seq<Step>, l: nat) {
    steps != [] && (steps[|steps| - 1] == Command(l, Quit) || ToldToQuit(steps[..|steps| - 1], l))
  }

  /** A loop runs until it is told to quit, and its clock shows what it has been through. */
  lemma {:induction false} LoopsRunUntilToldToQuit(loops: set<nat>, steps: seq<Step>, l: nat)
    requires l in loops
    ensures
      var sys := Run(Start(loops), steps);
      && l in sys.loops && sys.loops[l].time == Reading(loops, steps, l)
      && (sys.loops[l].running <==> !ToldToQuit(steps, l))
  {
    if steps != [] {
      LoopsRunUntilToldToQuit(loops, steps[..|steps| - 1], l);
    }
  }

  // ---- Happens-before ----

  /** Program order within a loop, and from a send to a resumption that the scheduler based on it. */
  predicate Precedes(events: seq<Event>, i: nat, j: nat) {
    i < |events| && j < |events| && ((events[i].loop == events[j].loop && i < j) || i in events[j].causes)
  }

  predicate HappensBeforeVia(events: seq<Event>, path: seq<nat>) {
    |path| >= 2 && forall k :: 0 <= k < |path| - 1 ==> Precedes(events, path[k], path[k + 1])
  }

  ghost predicate HappensBefore(events: seq<Event>, i: nat, j: nat) {
    exists path :: HappensBeforeVia(events, path) && path[0] == i && path[|path| - 1] == j
  }

  ghost predicate EdgesIncrease(events: seq<Event>) {
    forall i: nat, j: nat :: Precedes(events, i, j) ==> i < j && events[i].time < events[j].time
  }

  /** Lamport's clock condition: what happens before has the smaller logical time. */
  ghost predicate ClockConditionHolds(events: seq<Event>) {
    forall i: nat, j: nat :: i < |events| && j < |events| && HappensBefore(events, i, j) ==>
      events[i].time < events[j].time
  }

  lemma {:induction false} PathIncreases(events: seq<Event>, path: seq<nat>)
    requires EdgesIncrease(events) && HappensBeforeVia(events, path)
    ensures path[0] < |events| && path[|path| - 1] < |events|
    ensures events[path[0]].time < events[path[|path| - 1]].time
  {
    assert Precedes(events, path[0], path[0 + 1]);
    if |path| > 2 {
      var rest := path[1..];
      forall k | 0 <= k < |rest| - 1
        ensures Precedes(events, rest[k], rest[k + 1])
      {
        assert Precedes(events, path[k + 1], path[k + 1 + 1]);
      }
      PathIncreases(events, rest);
    }
  }

  lemma EdgesSuffice(events: seq<Event>)
    requires EdgesIncrease(events)
    ensures ClockConditionHolds(events)
  {
    forall i: nat, j: nat | i < |events| && j < |events| && HappensBefore(events, i, j)
      ensures events[i].time < events[j].time
    {
      var path :| HappensBeforeVia(events, path) && path[0] == i && path[|path| - 1] == j;
      PathIncreases(events, path);
    }
  }

  lemma PrecedesIsHappensBefore(events: seq<Event>, i: nat, j: nat)
    requires Precedes(events, i, j)
    ensures HappensBefore(events, i, j)
  {
    var path: seq<nat> := [i, j];
    assert HappensBeforeVia(events, path) && path[0] == i && path[|path| - 1] == j;
  }

  /** An envelope about to reach a loop that, before some reset, was already later than it will now become. */
  ghost predicate Late(sys: System, step: Step) {
    && Enabled(sys, step) && step.Deliver?
    && exists i :: 0 <= i < |sys.events| && sys.events[i].loop == step.loop
         && sys.events[i].time > Max(sys.loops[step.loop].time, step.time)
  }

  ghost predicate NeverLate(loops: set<nat>, steps: seq<Step>) {
    steps != [] ==>
      var front := steps[..|steps| - 1];
      NeverLate(loops, front) && !Late(Run(Start(loops), front), steps[|steps| - 1])
  }

  ghost predicate CausesEarlier(events: seq<Event>) {
    forall j, i :: 0 <= j < |events| && i in events[j].causes ==> i < j
  }

  lemma {:induction false} CausesAreEarlier(loops: set<nat>, steps: seq<Step>)
    ensures CausesEarlier(Run(Start(loops), steps).events)
  {
    if steps != [] {
      CausesAreEarlier(loops, steps[..|steps| - 1]);
    }
  }

  lemma InTimeIncreases(sys: System, step: Step)
    requires EdgesIncrease(sys.events) && CausesEarlier(sys.events) && !Late(sys, step)
    ensures EdgesIncrease(Apply(sys, step).events)
  {
    var events, events' := sys.events, Apply(sys, step).events;
    forall i: nat, j: nat | Precedes(events', i, j)
      ensures i < j && events'[i].time < events'[j].time
    {
      if j < |events| {
        assert Precedes(events, i, j);
      }
    }
  }

  lemma EventsGrow(sys: System, step: Step)
    ensures sys.events <= Apply(sys, step).events
  {
  }

  lemma LateBreaks(sys: System, step: Step)
    requires Late(sys, step)
    ensures !ClockConditionHolds(Apply(sys, step).events)
  {
    var events' := Apply(sys, step).events;
    var i: nat :| i < |sys.events| && sys.events[i].loop == step.loop
      && sys.events[i].time > Max(sys.loops[step.loop].time, step.time);
    var j := |sys.events|;
    assert Precedes(events', i, j);
    PrecedesIsHappensBefore(events', i, j);
  }

  lemma HappensBeforeGrows(events: seq<Event>, events': seq<Event>, i: nat, j: nat)
    requires events <= events' && HappensBefore(events, i, j)
    ensures HappensBefore(events', i, j)
  {
    var path :| HappensBeforeVia(events, path) && path[0] == i && path[|path| - 1] == j;
    forall k | 0 <= k < |path| - 1
      ensures Precedes(events', path[k], path[k + 1])
    {
      assert Precedes(events, path[k], path[k + 1]);
    }
    assert HappensBeforeVia(events', path);
  }

  lemma BrokenStaysBroken(events: seq<Event>, events': seq<Event>)
    requires events <= events' && ClockConditionHolds(events')
    ensures ClockConditionHolds(events)
  {
    forall i: nat, j: nat | i < |events| && j < |events| && HappensBefore(events, i, j)
      ensures events[i].time < events[j].time
    {
      HappensBeforeGrows(events, events', i, j);
    }
  }

  /**
   * The clock condition holds exactly when the scheduler never sends an envelope to a loop that has logged a
   * time later than both the envelope's and the loop's own clock.
   */
  lemma {:induction false} ClockConditionIff(loops: set<nat>, steps: seq<Step>)
    ensures ClockConditionHolds(Run(Start(loops), steps).events) <==> NeverLate(loops, steps)
    ensures NeverLate(loops, steps) ==> EdgesIncrease(Run(Start(loops), steps).events)
  {
    if steps == [] {
      assert Run(Start(loops), steps).events == [];
      EdgesSuffice([]);
    } else {
      var sys, step := Run(Start(loops), steps[..|steps| - 1]), steps[|steps| - 1];
      ClockConditionIff(loops, steps[..|steps| - 1]);
      CausesAreEarlier(loops, steps[..|steps| - 1]);
      EventsGrow(sys, step);
      if Late(sys, step) {
        LateBreaks(sys, step);
      } else if NeverLate(loops, steps) {
        InTimeIncreases(sys, step);
        EdgesSuffice(Apply(sys, step).events);
      } else if ClockConditionHolds(Apply(sys, step).events) {
        BrokenStaysBroken(sys.events, Apply(sys, step).events);
      }
    }
  }

  // ---- Without log resets no envelope is late ----

  predicate NoReset(steps: seq<Step>) {
    forall i :: 0 <= i < |steps| ==> !(steps[i].Command? && steps[i].cmd.ResetLog?)
  }

  ghost predicate ClocksAhead(sys: System) {
    forall i :: 0 <= i < |sys.events| ==>
      sys.events[i].loop in sys.loops && sys.events[i].time <= sys.loops[sys.events[i].loop].time
  }

  lemma StepKeepsClocksAhead(sys: System, step: Step)
    requires ClocksAhead(sys) && !(step.Command? && step.cmd.ResetLog?)
    ensures ClocksAhead(Apply(sys, step)) && !Late(sys, step)
  {
  }

  lemma {:induction false} NoResetIsNeverLate(loops: set<nat>, steps: seq<Step>)
    requires NoReset(steps)
    ensures ClocksAhead(Run(Start(loops), steps)) && NeverLate(loops, steps)
  {
    if steps != [] {
      NoResetIsNeverLate(loops, steps[..|steps| - 1]);
      StepKeepsClocksAhead(Run(Start(loops), steps[..|steps| - 1]), steps[|steps| - 1]);
    }
  }

  /** In particular it holds in every run without log resets. */
  lemma ClockCondition(loops: set<nat>, steps: seq<Step>)
    requires NoReset(steps)
    ensures ClockConditionHolds(Run(Start(loops), steps).events)
  {
    NoResetIsNeverLate(loops, steps);
    ClockConditionIff(loops, steps);
  }

  /** A reset followed by an early envelope: the literal run that shows that the condition can fail. */
  lemma ResetBreaksTheCondition()
    ensures
      var steps := [Deliver(0, 7, "", "", {}), Command(0, ResetLog), Deliver(0, 0, "", "", {})];
      !NeverLate({0}, steps) && !ClockConditionHolds(Run(Start({0}), steps).events)
  {
    var a, b, c := Deliver(0, 7, "", "", {}), Command(0, ResetLog), Deliver(0, 0, "", "", {});
    assert [a, b, c][..2] == [a, b] && [a, b][..1] == [a] && [a][..0] == [];
    assert Run(Start({0}), [a]) == Apply(Start({0}), a);
    var sys := Run(Start({0}), [a, b]);
    assert sys == Apply(Apply(Start({0}), a), b);
    assert sys.events[0].loop == 0 && sys.events[0].time == 8;
    assert Late(sys, c);
    ClockConditionIff({0}, [a, b, c]);
  }
}
