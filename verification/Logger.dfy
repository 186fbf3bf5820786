/**
 * The batching logger: a producer that fills a bounded queue and counts, and a worker that batches entries
 * into the database. Their interleavings are the runs of one step function.
 */
module LoggerPipeline {
  import opened Framing

  const QUEUE_SIZE := 1024
  const BUFFER_LEN := 512

  /** Where the reactor is inside `Receive`: an entry may wait for room, or be queued but not yet counted. */
  datatype Producer = Ready | Blocked(entry: string) | Queued

  /** An index read and, as a record, the entries logged before it. */
  datatype Read = Read(value: nat, logged: seq<string>)

  datatype State = State(
    queue: seq<string>,
    index: nat,
    producer: Producer,
    buffer: seq<string>,
    committed: seq<Row>,
    panicked: bool,
    accepted: seq<string>,
    indexReads: seq<Read>)

  datatype Step =
    | Log(entry: string)
    | Unblock
    | Count
    | Index
    | Worker(timeout: bool)

  /** `rowid` is the highest row id in the database when the logger starts. */
  function Start(rowid: nat): State {
    State([], rowid, Ready, [], [], false, [], [])
  }

  function Enqueue(s: State, entry: string): State {
    s.(queue := s.queue + [entry], producer := Queued, accepted := s.accepted + [entry])
  }

  function Rows(entries: seq<string>): Option<seq<Row>> {
    if entries == [] then Some([]) else
      var front, last := Rows(entries[..|entries| - 1]), Parse(entries[|entries| - 1]);
      if front.Some? && last.Some? then Some(front.value + [last.value]) else None
  }

  /** A transaction: every entry of the batch is inserted, or the process panics and nothing is. */
  function Commit(s: State): State {
    match Rows(s.buffer)
    case Some(rows) => s.(committed := s.committed + rows, buffer := [])
    case None => s.(panicked := true)
  }

  function Take(s: State): State
    requires s.queue != []
  {
    s.(buffer := s.buffer + [s.queue[0]], queue := s.queue[1..])
  }

  /** One turn of the worker's loop; `timeout` says whether its timer wins the `select`. */
  function Work(s: State, timeout: bool): State {
    if |s.buffer| >= BUFFER_LEN then Commit(s)
    else if |s.buffer| > 0 && timeout then Commit(s)
    else if s.queue != [] then Take(s)
    else s
  }

  /** Steps that are not possible do nothing; after a panic nothing is. */
  function Apply(s: State, step: Step): State {
    if s.panicked then s else
      match step
      case Log(entry) =>
        if !s.producer.Ready? then s
        else if |s.queue| < QUEUE_SIZE then Enqueue(s, entry)
        else s.(producer := Blocked(entry))
      case Unblock => if s.producer.Blocked? && |s.queue| < QUEUE_SIZE then Enqueue(s, s.producer.entry) else s
      case Count => if s.producer.Queued? then s.(index := s.index + 1, producer := Ready) else s
      case Index => if s.producer.Ready? then s.(indexReads := s.indexReads + [Read(s.index, s.accepted)]) else s
      case Worker(timeout) => Work(s, timeout)
  }

  function Run(s: State, steps: seq<Step>): State {
    if steps == [] then s else Apply(Run(s, steps[..|steps| - 1]), steps[|steps| - 1])
  }

  // ---- The two goroutines ----

  class Logger {
    var queue: seq<string>
    var index: nat
    var producer: Producer

    /** What of a state the reactor holds. */
    ghost predicate Holds(s: State)
      reads this
    {
      s.queue == queue && s.index == index && s.producer == producer
    }

    constructor (rowid: nat)
      ensures Holds(Start(rowid))
    {
      queue, index, producer := [], rowid, Ready;
    }

    /** The sends of `enqueue`: they succeed only while the channel has room. */
    method TryEnqueue(entry: string) returns (ok: bool)
      modifies this`queue
      ensures ok <==> |old(queue)| < QUEUE_SIZE
      ensures queue == if ok then old(queue) + [entry] else old(queue)
    {
      ok := |queue| < QUEUE_SIZE;
      if ok {
        queue := queue + [entry];
      }
    }

    /** One turn of the reactor; `read` is the index that it writes for a component that asks for it. */
    method Turn(step: Step, ghost s: State) returns (read: Option<nat>)
      requires Holds(s) && !s.panicked && !step.Worker?
      modifies this
      ensures Holds(Apply(s, step))
      ensures Apply(s, step).indexReads
           == s.indexReads + if read.Some? then [Read(read.value, s.accepted)] else []
    {
      read := None;
      match step {
        case Log(entry) =>
          if producer == Ready {
            var ok := TryEnqueue(entry);
            producer := if ok then Queued else Blocked(entry);
          }
        case Unblock =>
          if producer.Blocked? {
            var ok := TryEnqueue(producer.entry);
            if ok {
              producer := Queued;
            }
          }
        case Count =>
          if producer == Queued {
            index := index + 1;
            producer := Ready;
          }
        case Index =>
          if producer == Ready {
            read := Some(index);
          }
      }
    }
  }

  class Worker {
    var buffer: seq<string>
    var committed: seq<Row>

    constructor ()
      ensures buffer == [] && committed == []
    {
      buffer, committed := [], [];
    }

    /** The rows of the transaction, or a panic at the first entry that is not three fields. */
    method Insert() returns (rows: seq<Row>, panicked: bool)
      ensures panicked <==> Rows(buffer).None?
      ensures !panicked ==> rows == Rows(buffer).value
    {
      rows, panicked := [], false;
      for i := 0 to |buffer|
        invariant !panicked && Rows(buffer[..i]) == Some(rows)
      {
        assert buffer[..i + 1][..i] == buffer[..i];
        var parsed := Parse(buffer[i]);
        match parsed {
          case None =>
            RowsNone(buffer, i);
            panicked := true;
            return;
          case Some(row) => rows := rows + [row];
        }
      }
      assert buffer[..|buffer|] == buffer;
    }

    method DoCommit() returns (panicked: bool)
      modifies this
      ensures panicked <==> Rows(old(buffer)).None?
      ensures committed == if panicked then old(committed) else old(committed) + Rows(old(buffer)).value
      ensures buffer == if panicked then old(buffer) else []
    {
      var rows;
      rows, panicked := Insert();
      if !panicked {
        committed := committed + rows;
        buffer := [];
      }
    }

    /** One turn of the loop, against the state that the step function describes. */
    method Turn(logger: Logger, timeout: bool, ghost s: State) returns (panicked: bool)
      requires !s.panicked && s.queue == logger.queue && s.buffer == buffer && s.committed == committed
      modifies this, logger`queue
      ensures
        var s' := Work(s, timeout);
        s'.queue == logger.queue && s'.buffer == buffer && s'.committed == committed && s'.panicked == panicked
    {
      panicked := false;
      if |buffer| >= BUFFER_LEN {
        panicked := DoCommit();
      } else if |buffer| == 0 {
        if logger.queue != [] {
          buffer := buffer + [logger.queue[0]];
          logger.queue := logger.queue[1..];
        }
      } else if !timeout {
        if logger.queue != [] {
          buffer := buffer + [logger.queue[0]];
          logger.queue := logger.queue[1..];
        }
      } else {
        panicked := DoCommit();
      }
    }
  }

  lemma {:induction false} RowsNone(entries: seq<string>, i: nat)
    requires i < |entries| && Parse(entries[i]).None?
    ensures Rows(entries).None?
  {
    if i < |entries| - 1 {
      RowsNone(entries[..|entries| - 1], i);
    }
  }

  lemma {:induction false} RowsAppend(a: seq<string>, b: seq<string>)
    requires Rows(a).Some? && Rows(b).Some?
    ensures Rows(a + b) == Some(Rows(a).value + Rows(b).value)
  {
    if b == [] {
      assert a + b == a && Rows(a).value + [] == Rows(a).value;
    } else {
      RowsAppend(a, b[..|b| - 1]);
      assert (a + b)[..|a + b| - 1] == a + b[..|b| - 1];
      assert (a + b)[|a + b| - 1] == b[|b| - 1];
      var front, last := Rows(b[..|b| - 1]).value, Parse(b[|b| - 1]).value;
      assert Rows(a).value + (front + [last]) == Rows(a).value + front + [last];
    }
  }

  lemma {:induction false} RowsPrefix(entries: seq<string>, n: nat)
    requires Rows(entries).Some? && n <= |entries|
    ensures |Rows(entries).value| == |entries|
    ensures Rows(entries[..n]).Some? && Rows(entries[..n]).value == Rows(entries).value[..n]
  {
    if entries != [] {
      var front := entries[..|entries| - 1];
      RowsPrefix(front, if n <= |front| then n else |front|);
      if n == |entries| {
        assert entries[..n] == entries;
      } else {
        assert front[..n] == entries[..n];
      }
    }
  }

  // ---- Nothing is lost, duplicated or reordered ----

  /** The committed rows come from `done`, and the accepted entries are `done`, the batch and the queue, in order. */
  ghost predicate Conserved(s: State, done: seq<string>) {
    s.accepted == done + s.buffer + s.queue && Rows(done) == Some(s.committed)
  }

  ghost predicate Bounded(s: State) {
    |s.buffer| <= BUFFER_LEN && |s.queue| <= QUEUE_SIZE
  }

  ghost predicate Counted(s: State, rowid: nat) {
    && s.index + (if s.producer.Queued? then 1 else 0) == rowid + |s.accepted|
    && forall i :: 0 <= i < |s.indexReads| ==>
         s.indexReads[i].value == rowid + |s.indexReads[i].logged| && s.indexReads[i].logged <= s.accepted
  }

  ghost predicate Inv(s: State, rowid: nat) {
    Bounded(s) && Counted(s, rowid) && exists done :: Conserved(s, done)
  }

  lemma CommitConserves(s: State, done: seq<string>) returns (done': seq<string>)
    requires Conserved(s, done)
    ensures Conserved(Commit(s), done')
  {
    if Rows(s.buffer).Some? {
      done' := done + s.buffer;
      RowsAppend(done, s.buffer);
      assert done' + [] + s.queue == done + s.buffer + s.queue;
    } else {
      done' := done;
    }
  }

  lemma StepConserves(s: State, step: Step, done: seq<string>) returns (done': seq<string>)
    requires Conserved(s, done)
    ensures Conserved(Apply(s, step), done')
  {
    done' := done;
    if step.Worker? && !s.panicked && (|s.buffer| >= BUFFER_LEN || (|s.buffer| > 0 && step.timeout)) {
      done' := CommitConserves(s, done);
    } else if step.Worker? && s.queue != [] {
      assert s.queue == [s.queue[0]] + s.queue[1..];
    }
  }

  lemma StepCounts(s: State, step: Step, rowid: nat)
    requires Bounded(s) && Counted(s, rowid)
    ensures Bounded(Apply(s, step)) && Counted(Apply(s, step), rowid)
  {
  }

  /** In every interleaving: committed rows, batch and queue are the accepted entries in order, within the bounds. */
  lemma {:induction false} RunKeeps(rowid: nat, steps: seq<Step>)
    ensures Inv(Run(Start(rowid), steps), rowid)
  {
    if steps == [] {
      assert Conserved(Start(rowid), []);
    } else {
      var s, step := Run(Start(rowid), steps[..|steps| - 1]), steps[|steps| - 1];
      RunKeeps(rowid, steps[..|steps| - 1]);
      var done :| Conserved(s, done);
      var done' := StepConserves(s, step, done);
      StepCounts(s, step, rowid);
    }
  }

  /**
   * The index is a linearisable read point: once as many rows exist as a read returned, they begin with
   * the entries logged before that read, in the order in which they were logged.
   */
  lemma IndexReadsAreLinearisable(rowid: nat, steps: seq<Step>, i: nat)
    requires i < |Run(Start(rowid), steps).indexReads|
    ensures
      var s := Run(Start(rowid), steps);
      var read := s.indexReads[i];
      && read.value == rowid + |read.logged|
      && (rowid + |s.committed| >= read.value ==>
            && Rows(read.logged).Some?
            && |Rows(read.logged).value| == |read.logged|
            && Rows(read.logged).value <= s.committed)
  {
    RunKeeps(rowid, steps);
    var s := Run(Start(rowid), steps);
    var read := s.indexReads[i];
    var done :| Conserved(s, done);
    RowsPrefix(done, 0);
    if |s.committed| >= |read.logged| {
      assert read.logged == s.accepted[..|read.logged|] == done[..|read.logged|];
      RowsPrefix(done, |read.logged|);
      RowsPrefix(read.logged, 0);
    }
  }

  // ---- The worker drains what is well formed ----

  predicate WellFormed(entries: seq<string>) {
    forall i :: 0 <= i < |entries| ==> Parse(entries[i]).Some?
  }

  lemma {:induction false} RowsIffWellFormed(entries: seq<string>)
    ensures Rows(entries).Some? <==> WellFormed(entries)
  {
    if entries != [] {
      RowsIffWellFormed(entries[..|entries| - 1]);
    }
  }

  lemma {:induction false} RunAppend(s: State, first: seq<Step>, second: seq<Step>)
    ensures Run(s, first + second) == Run(Run(s, first), second)
  {
    if second == [] {
      assert first + second == first;
    } else {
      RunAppend(s, first, second[..|second| - 1]);
      assert (first + second)[..|first + second| - 1] == first + second[..|second| - 1];
    }
  }

  lemma RunOne(s: State, step: Step)
    ensures Run(s, [step]) == Apply(s, step)
  {
    assert [step][..0] == [];
  }

  /** Commits a non-empty batch, otherwise takes an entry: the worker never gets stuck on good entries. */
  lemma {:induction false} Drain(s: State) returns (more: seq<Step>)
    requires !s.panicked && WellFormed(s.buffer + s.queue)
    ensures
      var s' := Run(s, more);
      && !s'.panicked && s'.buffer == [] && s'.queue == []
      && s'.accepted == s.accepted && s'.producer == s.producer
    ensures forall i :: 0 <= i < |more| ==> more[i].Worker?
    decreases |s.queue|, |s.buffer|
  {
    if s.buffer == [] && s.queue == [] {
      more := [];
    } else {
      var step := Step.Worker(true);
      var s' := Apply(s, step);
      assert WellFormed(s.buffer) by {
        assert forall i :: 0 <= i < |s.buffer| ==> (s.buffer + s.queue)[i] == s.buffer[i];
      }
      RowsIffWellFormed(s.buffer);
      assert WellFormed(s'.buffer + s'.queue) by {
        if s.buffer == [] {
          assert s'.buffer + s'.queue == s.buffer + s.queue;
        } else {
          assert forall i :: 0 <= i < |s.queue| ==> (s.buffer + s.queue)[|s.buffer| + i] == s.queue[i];
        }
      }
      RunOne(s, step);
      var rest := Drain(s');
      more := [step] + rest;
      RunAppend(s, [step], rest);
    }
  }

  /**
   * From every reachable state without a panic, some continuation commits every accepted entry exactly when
   * all entries that are still in the batch or the queue have three fields.
   */
  lemma AllCommittedIffWellFormed(rowid: nat, steps: seq<Step>)
    requires !Run(Start(rowid), steps).panicked
    ensures
      var s := Run(Start(rowid), steps);
      (exists more :: |Run(Start(rowid), steps + more).committed| >= |s.accepted|) <==> WellFormed(s.buffer + s.queue)
  {
    var s := Run(Start(rowid), steps);
    RunKeeps(rowid, steps);
    var done :| Conserved(s, done);
    if more :| |Run(Start(rowid), steps + more).committed| >= |s.accepted| {
      CommittedAreWellFormed(rowid, steps, more, done);
    }
    if WellFormed(s.buffer + s.queue) {
      var more := Drain(s);
      RunAppend(Start(rowid), steps, more);
      RunKeeps(rowid, steps + more);
      var all :| Conserved(Run(Start(rowid), steps + more), all);
      RowsPrefix(all, 0);
    }
  }

  lemma {:induction false} AcceptedGrows(s: State, more: seq<Step>)
    ensures s.accepted <= Run(s, more).accepted
  {
    if more != [] {
      AcceptedGrows(s, more[..|more| - 1]);
    }
  }

  lemma CommittedAreWellFormed(rowid: nat, steps: seq<Step>, more: seq<Step>, done: seq<string>)
    requires
      var s := Run(Start(rowid), steps);
      Conserved(s, done) && |Run(Start(rowid), steps + more).committed| >= |s.accepted|
    ensures
      var s := Run(Start(rowid), steps);
      WellFormed(s.buffer + s.queue)
  {
    var s, s' := Run(Start(rowid), steps), Run(Start(rowid), steps + more);
    RunKeeps(rowid, steps + more);
    RunAppend(Start(rowid), steps, more);
    AcceptedGrows(s, more);
    var all :| Conserved(s', all);
    RowsPrefix(all, 0);
    RowsIffWellFormed(all);
    var rest := s.buffer + s.queue;
    forall i | 0 <= i < |rest|
      ensures Parse(rest[i]).Some?
    {
      assert rest[i] == s.accepted[|done| + i] == s'.accepted[|done| + i] == all[|done| + i];
    }
  }
}
