/** The debugger's replay of recorded heap diffs into one snapshot per network event. */
module HeapReplay {
  type Bytes = string

  datatype HeapDiff = HeapDiff(reactor: string, at: int, diff: Bytes)

  datatype NetworkEvent = NetworkEvent(recvAt: int)

  type Patch = (Bytes, Bytes) -> Bytes

  // ---- What the replay computes ----

  type Heap = map<string, Bytes>

  /** Go's nil slice for a reactor without an entry. */
  function Lookup(heap: Heap, reactor: string): Bytes {
    if reactor in heap then heap[reactor] else ""
  }

  function InitHeap(inits: seq<HeapDiff>): Heap {
    if inits == [] then map[] else
      InitHeap(inits[..|inits| - 1])[inits[|inits| - 1].reactor := inits[|inits| - 1].diff]
  }

  /** Later diffs with the same time replace earlier ones. */
  function ChangeMap(changes: seq<HeapDiff>): map<int, HeapDiff> {
    if changes == [] then map[] else
      ChangeMap(changes[..|changes| - 1])[changes[|changes| - 1].at := changes[|changes| - 1]]
  }

  function ReplayOne(patch: Patch, changes: map<int, HeapDiff>, heap: Heap, event: NetworkEvent): Heap {
    if event.recvAt in changes then
      var hd := changes[event.recvAt];
      heap[hd.reactor := patch(Lookup(heap, hd.reactor), hd.diff)]
    else heap
  }

  function Snapshot(patch: Patch, changes: map<int, HeapDiff>, init: Heap, network: seq<NetworkEvent>): Heap {
    if network == [] then init else
      ReplayOne(patch, changes, Snapshot(patch, changes, init, network[..|network| - 1]), network[|network| - 1])
  }

  // ---- What that means for single entries ----

  /** Entry c is the last one that satisfies the condition of its position. */
  ghost predicate LastAt(changes: seq<HeapDiff>, c: nat, t: int) {
    c < |changes| && changes[c].at == t && forall j :: c < j < |changes| ==> changes[j].at != t
  }

  ghost predicate LastFor(inits: seq<HeapDiff>, c: nat, reactor: string) {
    c < |inits| && inits[c].reactor == reactor && forall j :: c < j < |inits| ==> inits[j].reactor != reactor
  }

  lemma {:induction false} LastChangeWins(changes: seq<HeapDiff>, c: nat, t: int)
    requires LastAt(changes, c, t)
    ensures t in ChangeMap(changes) && ChangeMap(changes)[t] == changes[c]
  {
    if c < |changes| - 1 {
      LastChangeWins(changes[..|changes| - 1], c, t);
    }
  }

  lemma {:induction false} NoChangeNoEntry(changes: seq<HeapDiff>, t: int)
    requires forall hd :: hd in changes ==> hd.at != t
    ensures t !in ChangeMap(changes)
  {
    if changes != [] {
      NoChangeNoEntry(changes[..|changes| - 1], t);
    }
  }

  /** The first heap holds each reactor's last initial state, and nothing else. */
  lemma {:induction false} FirstHeap(inits: seq<HeapDiff>, reactor: string)
    ensures reactor in InitHeap(inits) <==> exists hd :: hd in inits && hd.reactor == reactor
    ensures forall c: nat :: LastFor(inits, c, reactor) ==>
      reactor in InitHeap(inits) && InitHeap(inits)[reactor] == inits[c].diff
  {
    if inits != [] {
      var front := inits[..|inits| - 1];
      FirstHeap(front, reactor);
      forall c: nat
        ensures LastFor(inits, c, reactor) <==>
          if inits[|front|].reactor == reactor then c == |front| else LastFor(front, c, reactor)
      {
      }
      assert inits == front + [inits[|front|]];
    }
  }

  /**
   * Each event patches the state of one reactor, empty if it has none yet, with the last diff recorded for the
   * event's time; without such a diff nothing changes.
   */
  lemma {:induction false} NextHeap(patch: Patch, changes: seq<HeapDiff>, init: Heap, network: seq<NetworkEvent>, i: nat)
    requires i < |network|
    ensures
      var before := Snapshot(patch, ChangeMap(changes), init, network[..i]);
      var after := Snapshot(patch, ChangeMap(changes), init, network[..i + 1]);
      && ((forall hd :: hd in changes ==> hd.at != network[i].recvAt) ==> after == before)
      && forall c: nat :: LastAt(changes, c, network[i].recvAt) ==>
           var r := changes[c].reactor;
           after == before[r := patch(if r in before then before[r] else "", changes[c].diff)]
  {
    assert network[..i + 1][..i] == network[..i];
    if forall hd :: hd in changes ==> hd.at != network[i].recvAt {
      NoChangeNoEntry(changes, network[i].recvAt);
    }
    forall c: nat | LastAt(changes, c, network[i].recvAt)
      ensures network[i].recvAt in ChangeMap(changes) && ChangeMap(changes)[network[i].recvAt] == changes[c]
    {
      LastChangeWins(changes, c, network[i].recvAt);
    }
  }

  /** A Go map: a reference, so that sharing one would let later writes reach earlier snapshots. */
  class HeapMap {
    var entries: Heap

    constructor (entries: Heap)
      ensures this.entries == entries
    {
      this.entries := entries;
    }

    /** The copy loop over the keys. */
    method Copy() returns (cp: HeapMap)
      ensures fresh(cp) && cp.entries == entries
    {
      cp := new HeapMap(map[]);
      var left := entries.Keys;
      while left != {}
        invariant left <= entries.Keys
        invariant cp.entries == entries - left
        decreases left
      {
        var k :| k in left;
        cp.entries := cp.entries[k := entries[k]];
        left := left - {k};
      }
    }
  }

  method BuildInit(inits: seq<HeapDiff>) returns (current: HeapMap, first: HeapMap)
    ensures fresh(current) && fresh(first) && current != first
    ensures current.entries == first.entries == InitHeap(inits)
  {
    current := new HeapMap(map[]);
    first := new HeapMap(map[]);
    for i := 0 to |inits|
      invariant current.entries == first.entries == InitHeap(inits[..i])
    {
      assert inits[..i + 1][..i] == inits[..i];
      current.entries := current.entries[inits[i].reactor := inits[i].diff];
      first.entries := first.entries[inits[i].reactor := inits[i].diff];
    }
    assert inits[..|inits|] == inits;
  }

  method BuildChangeMap(changes: seq<HeapDiff>) returns (changeMap: map<int, HeapDiff>)
    ensures changeMap == ChangeMap(changes)
  {
    changeMap := map[];
    for i := 0 to |changes|
      invariant changeMap == ChangeMap(changes[..i])
    {
      assert changes[..i + 1][..i] == changes[..i];
      changeMap := changeMap[changes[i].at := changes[i]];
    }
    assert changes[..|changes|] == changes;
  }

  /** Every snapshot is an object of its own, and still holds its own heap when the replay is over. */
  method Heaps(inits: seq<HeapDiff>, changes: seq<HeapDiff>, network: seq<NetworkEvent>, patch: Patch)
      returns (heaps: seq<HeapMap>)
    ensures |heaps| == |network| + 1
    ensures forall i :: 0 <= i < |heaps| ==>
      fresh(heaps[i]) && heaps[i].entries == Snapshot(patch, ChangeMap(changes), InitHeap(inits), network[..i])
    ensures forall i, j :: 0 <= i < j < |heaps| ==> heaps[i] != heaps[j]
  {
    var current, first := BuildInit(inits);
    var changeMap := BuildChangeMap(changes);
    heaps := [first];
    for i := 0 to |network|
      invariant |heaps| == i + 1 && fresh(current)
      invariant current.entries == Snapshot(patch, changeMap, InitHeap(inits), network[..i])
      invariant forall k :: 0 <= k < |heaps| ==>
        && fresh(heaps[k]) && heaps[k] != current
        && heaps[k].entries == Snapshot(patch, changeMap, InitHeap(inits), network[..k])
      invariant forall k, l :: 0 <= k < l < |heaps| ==> heaps[k] != heaps[l]
    {
      assert network[..i + 1][..i] == network[..i];
      var event := network[i];
      if event.recvAt in changeMap {
        var hd := changeMap[event.recvAt];
        var was := Lookup(current.entries, hd.reactor);
        current.entries := current.entries[hd.reactor := patch(was, hd.diff)];
      }
      var cp := current.Copy();
      heaps := heaps + [cp];
    }
  }

  // ---- What really happened ----

  datatype Effect = NoEffect | NewState(reactor: string, state: Bytes)

  /** A network event and the state in which it left the reactor that received it, if it reached one. */
  datatype Executed = Executed(recvAt: int, effect: Effect)

  function Actual(init: Heap, trace: seq<Executed>): Heap {
    if trace == [] then init else
      var heap, e := Actual(init, trace[..|trace| - 1]), trace[|trace| - 1].effect;
      if e.NewState? then heap[e.reactor := e.state] else heap
  }

  /** The diff that the executor records for event `i`. */
  function Recorded(diff: Patch, init: Heap, trace: seq<Executed>, i: nat): HeapDiff
    requires i < |trace| && trace[i].effect.NewState?
  {
    var e := trace[i].effect;
    HeapDiff(e.reactor, trace[i].recvAt, diff(Lookup(Actual(init, trace[..i]), e.reactor), e.state))
  }

  /** The recorded diffs are those of the events that reached a reactor, in whatever order they are read. */
  ghost predicate IsRecording(changes: seq<HeapDiff>, diff: Patch, init: Heap, trace: seq<Executed>) {
    && (forall hd :: hd in changes ==>
          exists i :: 0 <= i < |trace| && trace[i].effect.NewState? && hd == Recorded(diff, init, trace, i))
    && (forall i :: 0 <= i < |trace| && trace[i].effect.NewState? ==> Recorded(diff, init, trace, i) in changes)
  }

  ghost predicate DistinctTimes(trace: seq<Executed>) {
    forall i, j :: 0 <= i < j < |trace| ==> trace[i].recvAt != trace[j].recvAt
  }

  ghost predicate Undoes(patch: Patch, diff: Patch) {
    forall before, after :: patch(before, diff(before, after)) == after
  }

  function Received(trace: seq<Executed>): seq<NetworkEvent> {
    seq(|trace|, i requires 0 <= i < |trace| => NetworkEvent(trace[i].recvAt))
  }

  lemma {:induction false} ChangeMapMembers(changes: seq<HeapDiff>)
    ensures forall t :: t in ChangeMap(changes) ==> ChangeMap(changes)[t] in changes && ChangeMap(changes)[t].at == t
    ensures forall hd :: hd in changes ==> hd.at in ChangeMap(changes)
  {
    if changes != [] {
      ChangeMapMembers(changes[..|changes| - 1]);
      assert changes == changes[..|changes| - 1] + [changes[|changes| - 1]];
    }
  }

  /** With distinct times the table holds, for each event, exactly its own diff. */
  lemma OwnDiff(changes: seq<HeapDiff>, diff: Patch, init: Heap, trace: seq<Executed>, i: nat)
    requires IsRecording(changes, diff, init, trace) && DistinctTimes(trace) && i < |trace|
    ensures trace[i].recvAt in ChangeMap(changes) <==> trace[i].effect.NewState?
    ensures trace[i].effect.NewState? ==> ChangeMap(changes)[trace[i].recvAt] == Recorded(diff, init, trace, i)
  {
    ChangeMapMembers(changes);
    var t := trace[i].recvAt;
    if t in ChangeMap(changes) {
      var hd := ChangeMap(changes)[t];
      var j :| 0 <= j < |trace| && trace[j].effect.NewState? && hd == Recorded(diff, init, trace, j);
      assert j == i;
    }
  }

  lemma {:induction false} SnapshotIsActual(patch: Patch, diff: Patch, changes: seq<HeapDiff>, init: Heap,
                                            trace: seq<Executed>, n: nat)
    requires Undoes(patch, diff) && IsRecording(changes, diff, init, trace) && DistinctTimes(trace) && n <= |trace|
    ensures Snapshot(patch, ChangeMap(changes), init, Received(trace)[..n]) == Actual(init, trace[..n])
  {
    if n > 0 {
      SnapshotIsActual(patch, diff, changes, init, trace, n - 1);
      OwnDiff(changes, diff, init, trace, n - 1);
      assert Received(trace)[..n][..n - 1] == Received(trace)[..n - 1];
      assert trace[..n][..n - 1] == trace[..n - 1];
    }
  }

  /** Replaying any recording shows, after every event, the states in which the reactors really were. */
  method ReplayShowsActualStates(inits: seq<HeapDiff>, changes: seq<HeapDiff>, patch: Patch, ghost diff: Patch,
                                 ghost trace: seq<Executed>, network: seq<NetworkEvent>)
      returns (heaps: seq<HeapMap>)
    requires Undoes(patch, diff) && DistinctTimes(trace) && network == Received(trace)
    requires IsRecording(changes, diff, InitHeap(inits), trace)
    ensures |heaps| == |trace| + 1
    ensures forall i :: 0 <= i < |heaps| ==> heaps[i].entries == Actual(InitHeap(inits), trace[..i])
  {
    heaps := Heaps(inits, changes, network, patch);
    forall i | 0 <= i < |heaps|
      ensures heaps[i].entries == Actual(InitHeap(inits), trace[..i])
    {
      SnapshotIsActual(patch, diff, changes, InitHeap(inits), trace, i);
    }
  }

  // ---- Exactly the lists of distinct times are replayed correctly ----

  function Times(trace: seq<Executed>): seq<int> {
    seq(|trace|, i requires 0 <= i < |trace| => trace[i].recvAt)
  }

  ghost predicate Distinct(times: seq<int>) {
    forall i: nat, j: nat :: i < j < |times| ==> times[i] != times[j]
  }

  ghost predicate ShowsActual(patch: Patch, changes: seq<HeapDiff>, init: Heap, trace: seq<Executed>) {
    forall n: nat :: n <= |trace| ==>
      Snapshot(patch, ChangeMap(changes), init, Received(trace)[..n]) == Actual(init, trace[..n])
  }

  /** Whatever happens at these times, from whatever start, the replay shows it. */
  ghost predicate AlwaysShowsActual(patch: Patch, diff: Patch, times: seq<int>) {
    forall init, trace, changes ::
      Times(trace) == times && IsRecording(changes, diff, init, trace) ==> ShowsActual(patch, changes, init, trace)
  }

  /** Only event `j` reaches a reactor. */
  function Single(times: seq<int>, j: nat, effect: Effect): (trace: seq<Executed>)
    ensures |trace| == |times|
    ensures forall i :: 0 <= i < |times| ==> trace[i] == Executed(times[i], if i == j then effect else NoEffect)
  {
    seq(|times|, i requires 0 <= i < |times| => Executed(times[i], if i == j then effect else NoEffect))
  }

  lemma {:induction false} NothingBefore(init: Heap, times: seq<int>, j: nat, effect: Effect, n: nat)
    requires n <= j < |times|
    ensures Actual(init, Single(times, j, effect)[..n]) == init
  {
    if n > 0 {
      NothingBefore(init, times, j, effect, n - 1);
      assert Single(times, j, effect)[..n][..n - 1] == Single(times, j, effect)[..n - 1];
    }
  }

  lemma {:induction false} NothingReplayed(patch: Patch, changes: map<int, HeapDiff>, init: Heap,
                                           network: seq<NetworkEvent>)
    requires forall k :: 0 <= k < |network| ==> network[k].recvAt !in changes
    ensures Snapshot(patch, changes, init, network) == init
  {
    if network != [] {
      NothingReplayed(patch, changes, init, network[..|network| - 1]);
    }
  }

  lemma SingleIsRecorded(diff: Patch, init: Heap, times: seq<int>, j: nat, effect: Effect)
    requires j < |times| && effect.NewState?
    ensures
      var hd := HeapDiff(effect.reactor, times[j], diff(Lookup(init, effect.reactor), effect.state));
      IsRecording([hd], diff, init, Single(times, j, effect)) && ChangeMap([hd]) == map[times[j] := hd]
  {
    var trace := Single(times, j, effect);
    NothingBefore(init, times, j, effect, j);
    var hd := HeapDiff(effect.reactor, times[j], diff(Lookup(init, effect.reactor), effect.state));
    assert hd == Recorded(diff, init, trace, j);
    assert [hd][..0] == [] && hd in [hd];
  }

  /**
   * If two events have the same time, then from every start and under every lawful patch the replay can show
   * any state of any reactor too early: right after the first event with that time.
   */
  lemma DuplicateTimesMislead(patch: Patch, diff: Patch, init: Heap, times: seq<int>, i: nat, j: nat, effect: Effect)
    returns (trace: seq<Executed>, changes: seq<HeapDiff>)
    requires Undoes(patch, diff) && i < j < |times| && times[i] == times[j]
    requires forall k :: 0 <= k < i ==> times[k] != times[i]
    requires effect.NewState? && effect.state != Lookup(init, effect.reactor)
    ensures Times(trace) == times && IsRecording(changes, diff, init, trace)
    ensures Actual(init, trace[..i + 1]) == init
    ensures Snapshot(patch, ChangeMap(changes), init, Received(trace)[..i + 1]) == init[effect.reactor := effect.state]
    ensures !ShowsActual(patch, changes, init, trace)
  {
    trace := Single(times, j, effect);
    SingleIsRecorded(diff, init, times, j, effect);
    var hd := HeapDiff(effect.reactor, times[j], diff(Lookup(init, effect.reactor), effect.state));
    changes := [hd];
    NothingBefore(init, times, j, effect, i + 1);
    var received := Received(trace)[..i + 1];
    assert received[..i] == Received(trace)[..i];
    NothingReplayed(patch, ChangeMap(changes), init, received[..i]);
    assert received[i] == NetworkEvent(times[i]);
    var shown := Snapshot(patch, ChangeMap(changes), init, received);
    assert shown == ReplayOne(patch, ChangeMap(changes), init, received[i]);
    assert Lookup(shown, effect.reactor) != Lookup(init, effect.reactor);
  }

  lemma {:induction false} FirstOf(times: seq<int>, i: nat) returns (first: nat)
    requires i < |times|
    ensures first <= i && times[first] == times[i] && forall k :: 0 <= k < first ==> times[k] != times[i]
  {
    if k: nat :| k < i && times[k] == times[i] {
      first := FirstOf(times, k);
    } else {
      first := i;
    }
  }

  /** Under any lawful patch, what happened at given times is always shown exactly when the times are distinct. */
  lemma ReplayIsRightIffTimesAreDistinct(patch: Patch, diff: Patch, times: seq<int>)
    requires Undoes(patch, diff)
    ensures AlwaysShowsActual(patch, diff, times) <==> Distinct(times)
  {
    if Distinct(times) {
      forall init, trace, changes, n: nat |
        Times(trace) == times && IsRecording(changes, diff, init, trace) && n <= |trace|
        ensures Snapshot(patch, ChangeMap(changes), init, Received(trace)[..n]) == Actual(init, trace[..n])
      {
        DistinctTrace(trace);
        SnapshotIsActual(patch, diff, changes, init, trace, n);
      }
    } else {
      var i: nat, j: nat :| i < j < |times| && times[i] == times[j];
      var first := FirstOf(times, i);
      var trace, changes := DuplicateTimesMislead(patch, diff, map[], times, first, j, NewState("reactor", "state"));
    }
  }

  lemma DistinctTrace(trace: seq<Executed>)
    requires Distinct(Times(trace))
    ensures DistinctTimes(trace)
  {
    forall i, j | 0 <= i < j < |trace|
      ensures trace[i].recvAt != trace[j].recvAt
    {
      assert Times(trace)[i] != Times(trace)[j];
    }
  }
}
