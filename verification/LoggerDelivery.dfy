/** Every entry that is handed to the logger is accepted, and can be committed. */
module LoggerDelivery {
  import opened Framing
  import opened LoggerPipeline

  /** The entries of the calls that the reactor took: it was ready, and the worker had not panicked. */
  function Handed(rowid: nat, steps: seq<Step>): seq<string> {
    if steps == [] then [] else
      var front, step := steps[..|steps| - 1], steps[|steps| - 1];
      var s := Run(Start(rowid), front);
      Handed(rowid, front) + if step.Log? && s.producer.Ready? && !s.panicked then [step.entry] else []
  }

  function Waiting(s: State): seq<string> {
    if s.producer.Blocked? then [s.producer.entry] else []
  }

  lemma StepHandsOver(s: State, step: Step)
    ensures
      var handed := if step.Log? && s.producer.Ready? && !s.panicked then [step.entry] else [];
      s.accepted + Waiting(s) + handed == Apply(s, step).accepted + Waiting(Apply(s, step))
  {
  }

  /** In every run what was handed over is what was accepted, followed by the entry that is waiting for room. */
  lemma {:induction false} NothingIsDropped(rowid: nat, steps: seq<Step>)
    ensures
      var s := Run(Start(rowid), steps);
      Handed(rowid, steps) == s.accepted + Waiting(s)
  {
    if steps != [] {
      NothingIsDropped(rowid, steps[..|steps| - 1]);
      StepHandsOver(Run(Start(rowid), steps[..|steps| - 1]), steps[|steps| - 1]);
    }
  }

  /** An entry has to wait exactly when 1024 entries are queued. */
  lemma WaitsIffFull(rowid: nat, steps: seq<Step>, entry: string)
    requires Run(Start(rowid), steps).producer.Ready? && !Run(Start(rowid), steps).panicked
    ensures
      var s := Run(Start(rowid), steps);
      Apply(s, Log(entry)).producer == if |s.queue| == 1024 then Blocked(entry) else Queued
  {
    RunKeeps(rowid, steps);
  }

  // ---- When a batch is committed ----

  /** The worker ends a batch, with a commit or a panic, exactly when it is full or when it waited in vain. */
  lemma BatchEndsIff(rowid: nat, steps: seq<Step>, timeout: bool)
    requires !Run(Start(rowid), steps).panicked
    ensures
      var s := Run(Start(rowid), steps);
      var s' := Apply(s, Step.Worker(timeout));
      && (s'.panicked || |s'.committed| > |s.committed| <==> |s.buffer| == 512 || (timeout && s.buffer != []))
      && (s'.panicked || s'.committed != s.committed || s'.buffer == s.buffer + s.queue[..if s.queue == [] then 0 else 1])
  {
    RunKeeps(rowid, steps);
    var s := Run(Start(rowid), steps);
    RowsIffWellFormed(s.buffer);
    if Rows(s.buffer).Some? {
      RowsPrefix(s.buffer, 0);
    }
  }

  predicate NoTimeouts(steps: seq<Step>) {
    steps != [] ==>
      NoTimeouts(steps[..|steps| - 1]) && (steps[|steps| - 1].Worker? ==> !steps[|steps| - 1].timeout)
  }

  lemma FullCommit(s: State)
    requires Bounded(s) && |s.committed| % 512 == 0 && |s.buffer| == 512
    ensures |Commit(s).committed| % 512 == 0
  {
    if Rows(s.buffer).Some? {
      RowsPrefix(s.buffer, 0);
    }
  }

  /** As long as no entry keeps the worker waiting, it commits batches of 512. */
  lemma {:induction false} FullBatches(rowid: nat, steps: seq<Step>)
    requires NoTimeouts(steps)
    ensures |Run(Start(rowid), steps).committed| % 512 == 0
  {
    if steps != [] {
      var s := Run(Start(rowid), steps[..|steps| - 1]);
      FullBatches(rowid, steps[..|steps| - 1]);
      RunKeeps(rowid, steps[..|steps| - 1]);
      if |s.buffer| == 512 {
        FullCommit(s);
      }
    }
  }

  // ---- Everything can be committed ----

  /** Steps of the worker, and those with which the reactor finishes a call. */
  predicate Internal(step: Step) {
    step.Worker? || step.Unblock? || step.Count?
  }

  predicate AllInternal(steps: seq<Step>) {
    steps != [] ==> AllInternal(steps[..|steps| - 1]) && Internal(steps[|steps| - 1])
  }

  lemma InternalSnoc(steps: seq<Step>, step: Step)
    requires AllInternal(steps) && Internal(step)
    ensures AllInternal(steps + [step])
  {
    assert (steps + [step])[..|steps|] == steps;
  }

  lemma {:induction false} InternalAppend(first: seq<Step>, second: seq<Step>)
    requires AllInternal(first) && forall i :: 0 <= i < |second| ==> second[i].Worker?
    ensures AllInternal(first + second)
  {
    if second == [] {
      assert first + second == first;
    } else {
      var front, step := second[..|second| - 1], second[|second| - 1];
      InternalAppend(first, front);
      InternalSnoc(first + front, step);
      assert first + second == first + front + [step];
    }
  }

  lemma {:induction false} InternalHandsNothing(rowid: nat, steps: seq<Step>, more: seq<Step>)
    requires AllInternal(more)
    ensures Handed(rowid, steps + more) == Handed(rowid, steps)
  {
    if more == [] {
      assert steps + more == steps;
    } else {
      InternalHandsNothing(rowid, steps, more[..|more| - 1]);
      assert (steps + more)[..|steps + more| - 1] == steps + more[..|more| - 1];
    }
  }

  lemma RunSnoc(s: State, steps: seq<Step>, step: Step)
    ensures Run(s, steps + [step]) == Apply(Run(s, steps), step)
  {
    assert (steps + [step])[..|steps|] == steps;
  }

  /** Drains, lets a waiting entry in, counts it, and drains again. */
  lemma DrainAll(s: State) returns (more: seq<Step>)
    requires !s.panicked && WellFormed(s.buffer + s.queue) && WellFormed(Waiting(s))
    ensures AllInternal(more)
    ensures
      var s' := Run(s, more);
      !s'.panicked && s'.buffer == [] && s'.queue == [] && Waiting(s') == []
  {
    var first := Drain(s);
    var s1 := Run(s, first);
    var finished := first + [Unblock] + [Count];
    RunSnoc(s, first, Unblock);
    RunSnoc(s, first + [Unblock], Count);
    InternalAppend([], first);
    assert [] + first == first;
    InternalSnoc(first, Unblock);
    InternalSnoc(first + [Unblock], Count);
    var s3 := Run(s, finished);
    assert s3.buffer + s3.queue == Waiting(s);
    var rest := Drain(s3);
    RunAppend(s, finished, rest);
    InternalAppend(finished, rest);
    more := finished + rest;
  }

  lemma WellFormedSlice(all: seq<string>, a: seq<string>, b: seq<string>, c: seq<string>)
    requires all == a + b + c && WellFormed(all)
    ensures WellFormed(b) && WellFormed(c)
  {
    forall i | 0 <= i < |b|
      ensures Parse(b[i]).Some?
    {
      assert b[i] == all[|a| + i];
    }
    forall i | 0 <= i < |c|
      ensures Parse(c[i]).Some?
    {
      assert c[i] == all[|a| + |b| + i];
    }
  }

  ghost predicate PanicsForAReason(s: State) {
    s.panicked ==> !WellFormed(s.buffer)
  }

  lemma {:induction false} PanicIsJustified(rowid: nat, steps: seq<Step>)
    ensures PanicsForAReason(Run(Start(rowid), steps))
  {
    if steps != [] {
      PanicIsJustified(rowid, steps[..|steps| - 1]);
      RowsIffWellFormed(Run(Start(rowid), steps[..|steps| - 1]).buffer);
    }
  }

  lemma Regroup(a: seq<string>, b: seq<string>, c: seq<string>, d: seq<string>)
    ensures a + b + c + d == a + (b + c) + d && a + b + c + d == a + b + (c + d)
  {
  }

  lemma HandedSplits(rowid: nat, steps: seq<Step>)
    requires WellFormed(Handed(rowid, steps))
    ensures
      var s := Run(Start(rowid), steps);
      !s.panicked && WellFormed(s.buffer + s.queue) && WellFormed(Waiting(s))
  {
    var s := Run(Start(rowid), steps);
    NothingIsDropped(rowid, steps);
    RunKeeps(rowid, steps);
    var done :| Conserved(s, done);
    Regroup(done, s.buffer, s.queue, Waiting(s));
    WellFormedSlice(Handed(rowid, steps), done, s.buffer + s.queue, Waiting(s));
    WellFormedSlice(Handed(rowid, steps), done, s.buffer, s.queue + Waiting(s));
    PanicIsJustified(rowid, steps);
  }

  lemma DrainedIsCommitted(rowid: nat, steps: seq<Step>)
    requires
      var s := Run(Start(rowid), steps);
      s.buffer == [] && s.queue == [] && Waiting(s) == []
    ensures Rows(Handed(rowid, steps)) == Some(Run(Start(rowid), steps).committed)
  {
    var s := Run(Start(rowid), steps);
    NothingIsDropped(rowid, steps);
    RunKeeps(rowid, steps);
    var done :| Conserved(s, done);
    assert Handed(rowid, steps) == done;
  }

  /**
   * From every reachable state the worker and the reactor alone can commit exactly what was handed over, in order,
   * if and only if all of it has three fields.
   */
  lemma AllHandedCanBeCommittedIff(rowid: nat, steps: seq<Step>)
    ensures
      (exists more :: AllInternal(more)
         && Rows(Handed(rowid, steps)) == Some(Run(Start(rowid), steps + more).committed))
      <==> WellFormed(Handed(rowid, steps))
  {
    RowsIffWellFormed(Handed(rowid, steps));
    if WellFormed(Handed(rowid, steps)) {
      HandedSplits(rowid, steps);
      var more := DrainAll(Run(Start(rowid), steps));
      RunAppend(Start(rowid), steps, more);
      InternalHandsNothing(rowid, steps, more);
      DrainedIsCommitted(rowid, steps + more);
    }
  }
}
