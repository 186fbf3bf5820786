/** Which histories of FrontEnd4's clients are linearizable, and which are not. */
module Linearizability {
  import opened RegisterMessages
  import opened RegisterProtocol
  import opened RegisterGuarantees
  import opened SequentialRefinement
  import R = RegisterReactor

  // ---- Linearizability of a history ----

  /** What the writes of `order` leave in the list. */
  function Written(ops: seq<Op>, order: seq<SessionId>): seq<int> {
    if order == [] then [] else
      var s := order[|order| - 1];
      Written(ops, order[..|order| - 1])
      + if s < |ops| && ops[s].request.Write? then [ops[s].request.value] else []
  }

  /** What a single list answers to the operation at position `p`. */
  function Expected(ops: seq<Op>, order: seq<SessionId>, p: nat): Response
    requires p < |order| && order[p] < |ops|
  {
    if ops[order[p]].request.Write? then Ack else Value(Written(ops, order[..p]))
  }

  /** Distinct operations of the history, all the answered ones among them. */
  ghost predicate Serves(h: seq<Event>, order: seq<SessionId>) {
    && R.Distinct(order)
    && (forall p :: 0 <= p < |order| ==> order[p] < |Ops(h)|)
    && (forall s :: s in Answered(h) ==> s in order)
  }

  /** What was answered before another operation was invoked comes before it. */
  ghost predicate RespectsRealTime(h: seq<Event>, order: seq<SessionId>) {
    forall i: nat, j: nat, p: nat, q: nat ::
      (i < j < |h| && h[i].Replied? && h[j].Invoked? && p < |order| && q < |order|
       && order[p] == h[i].session && order[q] == h[j].session) ==> p < q
  }

  ghost predicate Explained(h: seq<Event>, order: seq<SessionId>) {
    forall k: nat, p: nat ::
      k < |h| && h[k].Replied? && p < |order| && order[p] == h[k].session && order[p] < |Ops(h)| ==>
        h[k].response == Expected(Ops(h), order, p)
  }

  ghost predicate Linearizes(h: seq<Event>, order: seq<SessionId>) {
    Serves(h, order) && RespectsRealTime(h, order) && Explained(h, order)
  }

  ghost predicate Linearizable(h: seq<Event>) {
    exists order :: Linearizes(h, order)
  }

  // ---- Writes that overlap nothing: the order of the answers ----

  lemma {:induction false} AnsweredStays(h: seq<Event>, k: nat)
    requires k < |h| && h[k].Replied?
    ensures Answered(h[..k]) + [h[k].session] <= Answered(h)
  {
    if k == |h| - 1 {
    } else {
      AnsweredStays(h[..|h| - 1], k);
      assert h[..|h| - 1][..k] == h[..k];
    }
  }

  /** A reply's position is the number of replies before it. */
  lemma PositionOfReply(h: seq<Event>, k: nat, p: nat)
    requires R.Distinct(Answered(h)) && k < |h| && h[k].Replied?
    requires p < |Answered(h)| && Answered(h)[p] == h[k].session
    ensures p == |Answered(h[..k])| && Answered(h)[..p] == Answered(h[..k])
  {
    AnsweredStays(h, k);
    var n := |Answered(h[..k])|;
    assert (Answered(h[..k]) + [h[k].session])[n] == Answered(h)[n];
  }

  lemma EarlierReply(h: seq<Event>, i: nat, k: nat)
    requires i < k <= |h| && h[i].Replied?
    ensures |Answered(h[..i])| < |Answered(h[..k])|
  {
    AnsweredStays(h[..k], i);
    assert h[..k][..i] == h[..i];
  }

  lemma WrittenSnoc(ops: seq<Op>, order: seq<SessionId>, s: SessionId)
    ensures Written(ops, order + [s])
         == Written(ops, order) + if s < |ops| && ops[s].request.Write? then [ops[s].request.value] else []
  {
    assert (order + [s])[..|order|] == order;
  }

  lemma AckedValuesSnoc(front: seq<Event>, e: Event)
    requires LegalEvent(front, e)
    ensures AckedValues(front + [e]) == AckedValues(front) +
      if e.Replied? && Ops(front)[e.session].request.Write? then [Ops(front)[e.session].request.value] else []
  {
    assert (front + [e])[..|front|] == front;
  }

  lemma {:induction false} WrittenIsAckedValues(ops: seq<Op>, h: seq<Event>)
    requires Legal(h) && Ops(h) <= ops
    ensures Written(ops, Answered(h)) == AckedValues(h)
  {
    if h != [] {
      var front, e := h[..|h| - 1], h[|h| - 1];
      assert h == front + [e];
      OpsPrefix(h, |front|);
      WrittenIsAckedValues(ops, front);
      Extend(front, e);
      AckedValuesSnoc(front, e);
      if e.Replied? {
        WrittenSnoc(ops, Answered(front), e.session);
        assert Ops(front)[e.session] == ops[e.session];
      } else {
        assert Answered(front) + [] == Answered(front) && AckedValues(front) + [] == AckedValues(front);
      }
    }
  }

  lemma AnswerOrderIsRealTime(h: seq<Event>)
    requires Legal(h) && R.Distinct(Answered(h))
    ensures RespectsRealTime(h, Answered(h))
  {
    var order := Answered(h);
    forall i: nat, j: nat, p: nat, q: nat |
      i < j < |h| && h[i].Replied? && h[j].Invoked? && p < |order| && q < |order|
      && order[p] == h[i].session && order[q] == h[j].session
      ensures p < q
    {
      AnsweredIffReplied(h, h[j].session);
      var k: nat :| k < |h| && h[k].Replied? && h[k].session == h[j].session;
      ReplyFollowsCall(h, j, k);
      PositionOfReply(h, i, p);
      PositionOfReply(h, k, q);
      EarlierReply(h, i, k);
    }
  }

  lemma AnswerIsExpected(h: seq<Event>, k: nat, p: nat)
    requires Legal(h) && R.Distinct(Answered(h)) && k < |h| && h[k].Replied?
    requires p < |Answered(h)| && Answered(h)[p] == h[k].session < |Ops(h)|
    requires h[k].response.Value? ==> h[k].response.values == AckedValues(h[..k])
    ensures h[k].response == Expected(Ops(h), Answered(h), p)
  {
    PositionOfReply(h, k, p);
    LegalPrefix(h, k);
    OpsPrefix(h, k);
    WrittenIsAckedValues(Ops(h), h[..k]);
  }

  /** The answered sessions are distinct operations. */
  lemma AnsweredAreOps(sys: System)
    requires Inv(sys)
    ensures Serves(sys.history, Answered(sys.history))
  {
    var order := Answered(sys.history);
    forall p | 0 <= p < |order|
      ensures order[p] < |Ops(sys.history)|
    {
      assert order[p] in order;
    }
  }

  /** If writes overlap nothing and reads overlap only reads, every history is linearizable, in the order of its replies. */
  lemma WritesAloneAreLinearizable(steps: seq<Step>, h: seq<Event>)
    requires WritesAlone(steps) && h == Run(Start, steps).history
    ensures Linearizes(h, Answered(h))
  {
    RunKeeps(steps);
    HistoriesAreLegal(steps);
    AnsweredAreOps(Run(Start, steps));
    AnswerOrderIsRealTime(h);
    forall k: nat, p: nat |
      k < |h| && h[k].Replied? && p < |Answered(h)| && Answered(h)[p] == h[k].session && Answered(h)[p] < |Ops(h)|
      ensures h[k].response == Expected(Ops(h), Answered(h), p)
    {
      if h[k].response.Value? {
        ReadsReturnAckedWrites(steps, k);
      }
      AnswerIsExpected(h, k, p);
    }
  }

  // ---- New-old inversion ----

  lemma {:induction false} WrittenGrows(ops: seq<Op>, order: seq<SessionId>, p: nat, q: nat)
    requires p <= q <= |order|
    ensures Written(ops, order[..p]) <= Written(ops, order[..q])
  {
    if p < q {
      WrittenGrows(ops, order, p, q - 1);
      assert order[..q][..q - 1] == order[..q - 1];
    }
  }

  /** A read that was answered before another read was invoked. */
  predicate ReadBeforeRead(h: seq<Event>, i: nat, j: nat, k: nat) {
    && i < j < |h| && k < |h|
    && h[i].Replied? && h[i].response.Value?
    && h[j].Invoked? && h[k].Replied? && h[k].session == h[j].session && h[k].response.Value?
  }

  /** In a linearizable history a later read returns at least what an earlier one did. */
  lemma LaterReadsSeeMore(h: seq<Event>, order: seq<SessionId>, i: nat, j: nat, k: nat)
    requires Linearizes(h, order) && ReadBeforeRead(h, i, j, k)
    ensures h[i].response.values <= h[k].response.values
  {
    AnsweredIffReplied(h, h[i].session);
    AnsweredIffReplied(h, h[k].session);
    var p: nat :| p < |order| && order[p] == h[i].session;
    var q: nat :| q < |order| && order[q] == h[k].session;
    assert h[i].response == Expected(Ops(h), order, p);
    assert h[k].response == Expected(Ops(h), order, q);
    WrittenGrows(Ops(h), order, p, q);
  }

  lemma InversionIsNotLinearizable(h: seq<Event>, i: nat, j: nat, k: nat)
    requires ReadBeforeRead(h, i, j, k) && !(h[i].response.values <= h[k].response.values)
    ensures !Linearizable(h)
  {
    if order :| Linearizes(h, order) {
      LaterReadsSeeMore(h, order, i, j, k);
    }
  }
}
