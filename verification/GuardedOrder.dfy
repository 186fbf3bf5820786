/** If no call is let in while a write is in flight, every history is linearizable: reads follow the writes they saw. */
module GuardedOrder {
  import opened RegisterMessages
  import opened RegisterProtocol
  import opened RegisterGuarantees
  import opened Linearizability
  import opened RegisterAgreement
  import opened GuardedCalls
  import R = RegisterReactor

  // ---- The order ----

  predicate AnsweredWith(e: Event, n: nat) {
    e.Replied? && e.response.Value? && |e.response.values| == n
  }

  /** The reads that were answered with n values, in the order of their replies. */
  function ReadsOf(h: seq<Event>, n: nat): seq<SessionId> {
    if h == [] then []
    else ReadsOf(h[..|h| - 1], n) + if AnsweredWith(h[|h| - 1], n) then [h[|h| - 1].session] else []
  }

  /** The first n writes, each after the reads that saw only the writes before it. */
  function Head(ops: seq<Op>, h: seq<Event>, n: nat): seq<SessionId>
    requires n <= |Writes(ops)|
    decreases n, 0
  {
    if n == 0 then [] else Blocks(ops, h, n - 1) + [Writes(ops)[n - 1]]
  }

  /** The first n writes and the reads that saw no more than these. */
  function Blocks(ops: seq<Op>, h: seq<Event>, n: nat): seq<SessionId>
    requires n <= |Writes(ops)|
    decreases n, 1
  {
    Head(ops, h, n) + ReadsOf(h, n)
  }

  function Order(ops: seq<Op>, h: seq<Event>): seq<SessionId> {
    Blocks(ops, h, |Writes(ops)|)
  }

  // ---- What is known of a reply ----

  lemma ReplyIsLegal(h: seq<Event>, k: nat)
    requires Legal(h) && k < |h| && h[k].Replied?
    ensures h[k].session < |Ops(h[..k])| <= |Ops(h)| && Ops(h[..k]) <= Ops(h)
    ensures h[k].session !in Answered(h[..k])
    ensures h[k].response.Value? <==> Ops(h)[h[k].session].request.Read?
  {
    LegalPrefix(h, k);
    OpsPrefix(h, k);
  }

  lemma {:induction false} WindowOfReply(h: seq<Event>, k: nat)
    requires Windowed(h) && k < |h| && h[k].Replied? && h[k].response.Value?
    ensures Window(Ops(h[..k]), h[k].session, h[k].response.values)
  {
    var front := h[..|h| - 1];
    if k < |front| {
      WindowOfReply(front, k);
      assert front[..k] == h[..k];
    }
  }

  /** A read saw no more writes than were issued before its reply, and no fewer than before its call. */
  lemma ReplyWindow(h: seq<Event>, k: nat)
    requires Legal(h) && Windowed(h) && k < |h| && h[k].Replied? && h[k].response.Value?
    ensures h[k].session < |Ops(h)|
    ensures |Writes(Ops(h)[..h[k].session])| <= |h[k].response.values| <= |Writes(Ops(h[..k]))| <= |Writes(Ops(h))|
    ensures h[k].response.values <= WriteValues(Ops(h))
  {
    var ops, ops' := Ops(h[..k]), Ops(h);
    ReplyIsLegal(h, k);
    WindowOfReply(h, k);
    assert ops'[..|ops|] == ops && ops'[..h[k].session] == ops[..h[k].session];
    WritesOfPrefix(ops', |ops|);
    ValuesOfWrites(ops);
  }

  // ---- Reads of one block ----

  lemma {:induction false} ReadsStay(h: seq<Event>, n: nat, k: nat)
    requires k < |h| && AnsweredWith(h[k], n)
    ensures ReadsOf(h[..k], n) + [h[k].session] <= ReadsOf(h, n)
  {
    if k < |h| - 1 {
      ReadsStay(h[..|h| - 1], n, k);
      assert h[..|h| - 1][..k] == h[..k];
    }
  }

  lemma EarlierRead(h: seq<Event>, n: nat, i: nat, k: nat)
    requires i < k <= |h| && AnsweredWith(h[i], n)
    ensures |ReadsOf(h[..i], n)| < |ReadsOf(h[..k], n)|
  {
    ReadsStay(h[..k], n, i);
    assert h[..k][..i] == h[..i];
  }

  ghost predicate ReadWith(h: seq<Event>, k: nat, n: nat, s: SessionId) {
    k < |h| && AnsweredWith(h[k], n) && h[k].session == s
  }

  lemma {:induction false} ReadsMembers(h: seq<Event>, n: nat, s: SessionId)
    ensures s in ReadsOf(h, n) <==> exists k: nat :: ReadWith(h, k, n, s)
  {
    if h != [] {
      var front := h[..|h| - 1];
      ReadsMembers(front, n, s);
      if k: nat :| ReadWith(front, k, n, s) {
        assert ReadWith(h, k, n, s);
      }
      if k: nat :| ReadWith(h, k, n, s) {
        assert k < |front| ==> ReadWith(front, k, n, s);
      }
      if AnsweredWith(h[|h| - 1], n) && h[|h| - 1].session == s {
        assert ReadWith(h, |h| - 1, n, s);
      }
    }
  }

  lemma {:induction false} ReadsAreDistinct(h: seq<Event>, n: nat)
    requires Legal(h)
    ensures R.Distinct(ReadsOf(h, n)) && forall s :: s in ReadsOf(h, n) ==> s in Answered(h)
  {
    if h != [] {
      ReadsAreDistinct(h[..|h| - 1], n);
      ReplyIsNew(h);
    }
  }

  lemma ReplyIsNew(h: seq<Event>)
    requires Legal(h) && h != []
    ensures h[|h| - 1].Replied? ==> h[|h| - 1].session !in Answered(h[..|h| - 1])
  {
  }

  // ---- Where everything is ----

  lemma {:induction false} BlocksStay(ops: seq<Op>, h: seq<Event>, n: nat, m: nat)
    requires n <= m <= |Writes(ops)|
    ensures Head(ops, h, n) <= Blocks(ops, h, n) <= Blocks(ops, h, m)
    ensures n < m ==> Blocks(ops, h, n) + [Writes(ops)[n]] <= Head(ops, h, m)
  {
    if n < m {
      BlocksStay(ops, h, n, m - 1);
    }
  }

  lemma PlaceOfWrite(ops: seq<Op>, h: seq<Event>, i: nat)
    requires i < |Writes(ops)|
    ensures |Blocks(ops, h, i)| < |Order(ops, h)| && Order(ops, h)[|Blocks(ops, h, i)|] == Writes(ops)[i]
  {
    var n := |Writes(ops)|;
    BlocksStay(ops, h, i, n);
    assert (Blocks(ops, h, i) + [Writes(ops)[i]])[|Blocks(ops, h, i)|] == Writes(ops)[i];
  }

  function ReadPlace(ops: seq<Op>, h: seq<Event>, k: nat, n: nat): nat
    requires k <= |h| && n <= |Writes(ops)|
  {
    |Head(ops, h, n)| + |ReadsOf(h[..k], n)|
  }

  lemma PlaceOfRead(ops: seq<Op>, h: seq<Event>, k: nat, n: nat)
    requires k < |h| && AnsweredWith(h[k], n) && n <= |Writes(ops)|
    ensures ReadPlace(ops, h, k, n) < |Blocks(ops, h, n)| <= |Order(ops, h)|
    ensures Order(ops, h)[ReadPlace(ops, h, k, n)] == h[k].session
    ensures Order(ops, h)[..ReadPlace(ops, h, k, n)] == Head(ops, h, n) + ReadsOf(h[..k], n)
  {
    var before := ReadsOf(h[..k], n);
    ReadsStay(h, n, k);
    BlocksStay(ops, h, n, |Writes(ops)|);
    assert (before + [h[k].session])[|before|] == h[k].session;
    assert Blocks(ops, h, n)[ReadPlace(ops, h, k, n)] == h[k].session;
    assert Blocks(ops, h, n)[..ReadPlace(ops, h, k, n)] == Head(ops, h, n) + before;
  }

  // ---- Nothing is there twice ----

  /** In the first n blocks: one of the first n writes, or a read that saw at most n writes. */
  ghost predicate Placed(ops: seq<Op>, h: seq<Event>, n: nat, s: SessionId)
    requires n <= |Writes(ops)|
  {
    s in Writes(ops)[..n] || exists k: nat, m: nat :: m <= n && ReadWith(h, k, m, s)
  }

  lemma {:induction false} BlocksMembers(ops: seq<Op>, h: seq<Event>, n: nat, s: SessionId)
    requires n <= |Writes(ops)|
    ensures s in Blocks(ops, h, n) <==> Placed(ops, h, n, s)
  {
    ReadsMembers(h, n, s);
    if n > 0 {
      BlocksMembers(ops, h, n - 1, s);
      assert Writes(ops)[..n] == Writes(ops)[..n - 1] + [Writes(ops)[n - 1]];
    }
  }

  lemma AnsweredEarlier(h: seq<Event>, k: nat, l: nat)
    requires k < l <= |h| && h[k].Replied?
    ensures h[k].session in Answered(h[..l])
  {
    AnsweredIffReplied(h[..l], h[k].session);
    assert h[..l][k] == h[k];
  }

  lemma OneReplyPerSession(h: seq<Event>, k: nat, l: nat)
    requires Legal(h) && k < |h| && l < |h| && h[k].Replied? && h[l].Replied? && h[k].session == h[l].session
    ensures k == l
  {
    ReplyIsLegal(h, k);
    ReplyIsLegal(h, l);
    if k < l {
      AnsweredEarlier(h, k, l);
    } else if l < k {
      AnsweredEarlier(h, l, k);
    }
  }

  lemma ReadIsNoWrite(h: seq<Event>, k: nat, n: nat, s: SessionId)
    requires Legal(h) && ReadWith(h, k, n, s)
    ensures s !in Writes(Ops(h))
  {
    ReplyIsLegal(h, k);
    WritesMembers(Ops(h));
  }

  lemma WriteIsNotEarlier(ops: seq<Op>, n: nat)
    requires 0 < n <= |Writes(ops)|
    ensures Writes(ops)[n - 1] in Writes(ops) && Writes(ops)[n - 1] !in Writes(ops)[..n - 1]
  {
    WritesAreDistinct(ops);
  }

  ghost predicate ReadsAreNoWrites(ops: seq<Op>, h: seq<Event>) {
    forall k: nat, m: nat, s: SessionId :: ReadWith(h, k, m, s) ==> s !in Writes(ops)
  }

  lemma LegalReadsAreNoWrites(h: seq<Event>)
    requires Legal(h)
    ensures ReadsAreNoWrites(Ops(h), h)
  {
    forall k: nat, m: nat, s: SessionId | ReadWith(h, k, m, s)
      ensures s !in Writes(Ops(h))
    {
      ReadIsNoWrite(h, k, m, s);
    }
  }

  lemma NewWrite(ops: seq<Op>, h: seq<Event>, n: nat)
    requires ReadsAreNoWrites(ops, h) && 0 < n <= |Writes(ops)|
    ensures Writes(ops)[n - 1] !in Blocks(ops, h, n - 1)
  {
    WriteIsNotEarlier(ops, n);
    BlocksMembers(ops, h, n - 1, Writes(ops)[n - 1]);
  }

  /** A read that saw n writes is in no earlier block. */
  lemma NotPlacedBefore(h: seq<Event>, k: nat, n: nat, m: nat, s: SessionId)
    requires Legal(h) && ReadWith(h, k, n, s) && m < n && m <= |Writes(Ops(h))|
    ensures !Placed(Ops(h), h, m, s)
  {
    ReadIsNoWrite(h, k, n, s);
    if l: nat, x: nat :| x <= m && ReadWith(h, l, x, s) {
      OneReplyPerSession(h, k, l);
    }
  }

  lemma NewReads(h: seq<Event>, n: nat, s: SessionId)
    requires Legal(h) && n <= |Writes(Ops(h))| && s in ReadsOf(h, n)
    ensures s !in Head(Ops(h), h, n)
  {
    ReadsMembers(h, n, s);
    var k: nat :| ReadWith(h, k, n, s);
    ReadIsNoWrite(h, k, n, s);
    if n > 0 {
      NotPlacedBefore(h, k, n, n - 1, s);
      BlocksMembers(Ops(h), h, n - 1, s);
    }
  }

  lemma AppendDistinct(a: seq<SessionId>, b: seq<SessionId>)
    requires R.Distinct(a) && R.Distinct(b) && forall s :: s in b ==> s !in a
    ensures R.Distinct(a + b)
  {
    forall i, j | 0 <= i < j < |a + b|
      ensures (a + b)[i] != (a + b)[j]
    {
      if i < |a| <= j {
        assert b[j - |a|] in b && a[i] in a;
      }
    }
  }

  lemma HeadIsDistinct(h: seq<Event>, n: nat)
    requires Legal(h) && n <= |Writes(Ops(h))| && (n > 0 ==> R.Distinct(Blocks(Ops(h), h, n - 1)))
    ensures R.Distinct(Head(Ops(h), h, n))
  {
    if n > 0 {
      LegalReadsAreNoWrites(h);
      NewWrite(Ops(h), h, n);
      AppendDistinct(Blocks(Ops(h), h, n - 1), [Writes(Ops(h))[n - 1]]);
    }
  }

  lemma {:induction false} BlocksAreDistinct(h: seq<Event>, n: nat)
    requires Legal(h) && n <= |Writes(Ops(h))|
    ensures R.Distinct(Blocks(Ops(h), h, n))
  {
    if n > 0 {
      BlocksAreDistinct(h, n - 1);
    }
    HeadIsDistinct(h, n);
    ReadsAreDistinct(h, n);
    forall s | s in ReadsOf(h, n)
      ensures s !in Head(Ops(h), h, n)
    {
      NewReads(h, n, s);
    }
    AppendDistinct(Head(Ops(h), h, n), ReadsOf(h, n));
  }

  // ---- The order is a linearization ----

  lemma OrderedIsOp(h: seq<Event>, s: SessionId)
    requires Legal(h) && s in Order(Ops(h), h)
    ensures s < |Ops(h)|
  {
    var n := |Writes(Ops(h))|;
    BlocksMembers(Ops(h), h, n, s);
    if s in Writes(Ops(h))[..n] {
      assert s in Writes(Ops(h));
      WritesMembers(Ops(h));
    } else {
      var k: nat, m: nat :| m <= n && ReadWith(h, k, m, s);
      ReplyIsLegal(h, k);
    }
  }

  lemma OrderServes(h: seq<Event>)
    requires Legal(h) && Windowed(h)
    ensures Serves(h, Order(Ops(h), h))
  {
    var order := Order(Ops(h), h);
    BlocksAreDistinct(h, |Writes(Ops(h))|);
    forall p | 0 <= p < |order|
      ensures order[p] < |Ops(h)|
    {
      OrderedIsOp(h, order[p]);
    }
    forall s | s in Answered(h)
      ensures s in order
    {
      AnsweredIffReplied(h, s);
      var k: nat :| k < |h| && h[k].Replied? && h[k].session == s;
      AnsweredIsPlaced(h, k);
    }
  }

  lemma AnsweredIsPlaced(h: seq<Event>, k: nat)
    requires Legal(h) && Windowed(h) && k < |h| && h[k].Replied?
    ensures h[k].session in Order(Ops(h), h)
  {
    var s, n := h[k].session, |Writes(Ops(h))|;
    ReplyIsLegal(h, k);
    WritesMembers(Ops(h));
    BlocksMembers(Ops(h), h, n, s);
    if h[k].response.Value? {
      ReplyWindow(h, k);
      assert ReadWith(h, k, |h[k].response.values|, s);
    } else {
      assert Writes(Ops(h))[..n] == Writes(Ops(h));
    }
  }

  // Values

  predicate IsRead(ops: seq<Op>, s: SessionId) {
    s < |ops| && ops[s].request.Read?
  }

  /** Whatever is answered with values is a read. */
  ghost predicate AreReads(ops: seq<Op>, h: seq<Event>) {
    forall k: nat :: k < |h| && h[k].Replied? && h[k].response.Value? ==> IsRead(ops, h[k].session)
  }

  lemma LegalReads(h: seq<Event>)
    requires Legal(h)
    ensures AreReads(Ops(h), h)
  {
    forall k: nat | k < |h| && h[k].Replied? && h[k].response.Value?
      ensures IsRead(Ops(h), h[k].session)
    {
      ReplyIsLegal(h, k);
    }
  }

  lemma {:induction false} ReadsWriteNothing(ops: seq<Op>, h: seq<Event>, n: nat, order: seq<SessionId>)
    requires AreReads(ops, h)
    ensures Written(ops, order + ReadsOf(h, n)) == Written(ops, order)
  {
    if h == [] {
      assert order + [] == order;
    } else {
      var front, e := h[..|h| - 1], h[|h| - 1];
      ReadsWriteNothing(ops, front, n, order);
      if AnsweredWith(e, n) {
        assert IsRead(ops, e.session);
        WrittenSnoc(ops, order + ReadsOf(front, n), e.session);
        assert order + ReadsOf(h, n) == order + ReadsOf(front, n) + [e.session];
      } else {
        assert ReadsOf(h, n) == ReadsOf(front, n);
      }
    }
  }

  lemma NextHead(ops: seq<Op>, h: seq<Event>, n: nat, x: int)
    requires AreReads(ops, h) && n < |Writes(ops)| && Writes(ops)[n] < |ops| && ops[Writes(ops)[n]].request == Write(x)
    ensures Written(ops, Head(ops, h, n + 1)) == Written(ops, Head(ops, h, n)) + [x]
  {
    ReadsWriteNothing(ops, h, n, Head(ops, h, n));
    WrittenSnoc(ops, Blocks(ops, h, n), Writes(ops)[n]);
  }

  lemma TakeNext(all: seq<int>, n: nat)
    requires n < |all|
    ensures all[..n] + [all[n]] == all[..n + 1]
  {
  }

  lemma {:induction false} WrittenByHead(ops: seq<Op>, h: seq<Event>, n: nat)
    requires AreReads(ops, h) && n <= |Writes(ops)| == |WriteValues(ops)|
    ensures Written(ops, Head(ops, h, n)) == WriteValues(ops)[..n]
  {
    if n > 0 {
      WrittenByHead(ops, h, n - 1);
      ValuesOfWrites(ops);
      NextHead(ops, h, n - 1, WriteValues(ops)[n - 1]);
      TakeNext(WriteValues(ops), n - 1);
    }
  }

  lemma ReplyIsExpected(h: seq<Event>, k: nat, p: nat)
    requires Legal(h) && Windowed(h) && k < |h| && h[k].Replied?
    requires p < |Order(Ops(h), h)| && Order(Ops(h), h)[p] == h[k].session < |Ops(h)|
    ensures h[k].response == Expected(Ops(h), Order(Ops(h), h), p)
  {
    var ops := Ops(h);
    ReplyIsLegal(h, k);
    if h[k].response.Value? {
      var n := |h[k].response.values|;
      ReplyWindow(h, k);
      PlaceOfRead(ops, h, k, n);
      BlocksAreDistinct(h, |Writes(ops)|);
      assert p == ReadPlace(ops, h, k, n);
      LegalReads(h);
      ReadsWriteNothing(ops, h[..k], n, Head(ops, h, n));
      ValuesOfWrites(ops);
      WrittenByHead(ops, h, n);
      assert h[k].response.values == WriteValues(ops)[..n];
    }
  }

  // Real time

  /** What was answered before c writes had been issued stands in the first c blocks, a write even before their last reads. */
  lemma PlaceOfAnswered(h: seq<Event>, i: nat, p: nat, c: nat)
    requires Legal(h) && Windowed(h) && i < |h| && h[i].Replied?
    requires p < |Order(Ops(h), h)| && Order(Ops(h), h)[p] == h[i].session
    requires |Writes(Ops(h[..i]))| <= c <= |Writes(Ops(h))|
    ensures p < |Blocks(Ops(h), h, c)|
    ensures h[i].response.Ack? ==> p < |Head(Ops(h), h, c)|
    ensures h[i].response.Value? ==>
      |h[i].response.values| <= c && p == ReadPlace(Ops(h), h, i, |h[i].response.values|)
  {
    var ops := Ops(h);
    ReplyIsLegal(h, i);
    BlocksAreDistinct(h, |Writes(ops)|);
    if h[i].response.Value? {
      var n := |h[i].response.values|;
      ReplyWindow(h, i);
      PlaceOfRead(ops, h, i, n);
      BlocksStay(ops, h, n, c);
    } else {
      var x := IndexOfWrite(h, i);
      PlaceOfWrite(ops, h, x);
      BlocksStay(ops, h, x, c);
      BlocksStay(ops, h, c, c);
    }
  }

  lemma IndexIn(ops: seq<Op>, s: SessionId) returns (x: nat)
    requires s < |ops| && ops[s].request.Write?
    ensures x < |Writes(ops)| && Writes(ops)[x] == s
  {
    WritesMembers(ops);
    assert s in Writes(ops);
    x :| 0 <= x < |Writes(ops)| && Writes(ops)[x] == s;
  }

  lemma IndexOfWrite(h: seq<Event>, i: nat) returns (x: nat)
    requires Legal(h) && i < |h| && h[i].Replied? && h[i].response.Ack?
    ensures x < |Writes(Ops(h[..i]))| <= |Writes(Ops(h))| && Writes(Ops(h))[x] == h[i].session
  {
    var past := Ops(h[..i]);
    ReplyIsLegal(h, i);
    assert Ops(h)[..|past|] == past;
    WritesOfPrefix(Ops(h), |past|);
    x := IndexIn(past, h[i].session);
  }

  /** A call after c writes stands after the first c of them, a write even after the reads that saw only these. */
  lemma PlaceOfCall(h: seq<Event>, j: nat, q: nat, c: nat)
    requires Legal(h) && Windowed(h) && j < |h| && h[j].Invoked? && c == |Writes(Ops(h[..j]))|
    requires q < |Order(Ops(h), h)| && Order(Ops(h), h)[q] == h[j].session
    ensures h[j].session < |Ops(h)| && c <= |Writes(Ops(h))|
    ensures Ops(h)[h[j].session].request.Write? ==> q == |Blocks(Ops(h), h, c)|
    ensures Ops(h)[h[j].session].request.Read? ==>
      exists k: nat, n: nat ::
        j < k && ReadWith(h, k, n, h[j].session) && c <= n <= |Writes(Ops(h))| && q == ReadPlace(Ops(h), h, k, n)
  {
    var ops, b := Ops(h), h[j].session;
    CallIsNext(h, j);
    WritesOfPrefix(ops, b);
    BlocksAreDistinct(h, |Writes(ops)|);
    if ops[b].request.Write? {
      WriteAfter(ops, b);
      PlaceOfWrite(ops, h, c);
    } else {
      BlocksMembers(ops, h, |Writes(ops)|, b);
      WritesMembers(ops);
      var k: nat, n: nat :| n <= |Writes(ops)| && ReadWith(h, k, n, b);
      ReplyFollowsCall(h, j, k);
      ReplyWindow(h, k);
      PlaceOfRead(ops, h, k, n);
    }
  }

  lemma CallIsNext(h: seq<Event>, j: nat)
    requires Legal(h) && j < |h| && h[j].Invoked?
    ensures h[j].session < |Ops(h)| && Ops(h)[..h[j].session] == Ops(h[..j])
  {
    LegalPrefix(h, j);
    OpsPrefix(h, j);
    OpOfCall(h, j);
  }

  lemma WriteAfter(ops: seq<Op>, b: nat)
    requires b < |ops| && ops[b].request.Write?
    ensures |Writes(ops[..b])| < |Writes(ops)| && Writes(ops)[|Writes(ops[..b])|] == b
  {
    WritesOfPrefix(ops, b + 1);
    assert ops[..b + 1][..b] == ops[..b];
    assert Writes(ops[..b + 1]) == Writes(ops[..b]) + [b];
  }

  lemma FewerWritesBefore(h: seq<Event>, i: nat, j: nat)
    requires i <= j <= |h|
    ensures |Writes(Ops(h[..i]))| <= |Writes(Ops(h[..j]))|
  {
    OpsMonotone(h, i, j);
    assert Ops(h[..j])[..|Ops(h[..i])|] == Ops(h[..i]);
    WritesOfPrefix(Ops(h[..j]), |Ops(h[..i])|);
  }

  /** What is in the first c blocks comes before a later reply to a read that saw c writes or more. */
  lemma BeforeRead(h: seq<Event>, i: nat, p: nat, c: nat, k: nat, n: nat)
    requires i < k < |h| && AnsweredWith(h[k], n) && c <= n <= |Writes(Ops(h))| && h[i].Replied?
    requires p < |Blocks(Ops(h), h, c)| && (h[i].response.Ack? ==> p < |Head(Ops(h), h, c)|)
    requires h[i].response.Value? ==>
      |h[i].response.values| <= c && p == ReadPlace(Ops(h), h, i, |h[i].response.values|)
    ensures p < ReadPlace(Ops(h), h, k, n)
  {
    BlocksStay(Ops(h), h, c, n);
    if h[i].response.Value? && |h[i].response.values| == n {
      EarlierRead(h, n, i, k);
    } else if h[i].response.Value? && c == n {
      var m := |h[i].response.values|;
      BlocksStay(Ops(h), h, m, n);
      PlaceOfRead(Ops(h), h, i, m);
    }
  }

  lemma InOrderOfTime(h: seq<Event>, i: nat, j: nat, p: nat, q: nat)
    requires Legal(h) && Windowed(h) && i < j < |h| && h[i].Replied? && h[j].Invoked?
    requires p < |Order(Ops(h), h)| && Order(Ops(h), h)[p] == h[i].session
    requires q < |Order(Ops(h), h)| && Order(Ops(h), h)[q] == h[j].session
    ensures p < q
  {
    var c := |Writes(Ops(h[..j]))|;
    FewerWritesBefore(h, i, j);
    PlaceOfCall(h, j, q, c);
    PlaceOfAnswered(h, i, p, c);
    if Ops(h)[h[j].session].request.Read? {
      var k: nat, n: nat :| j < k && ReadWith(h, k, n, h[j].session) && c <= n <= |Writes(Ops(h))|
        && q == ReadPlace(Ops(h), h, k, n);
      BeforeRead(h, i, p, c, k, n);
    }
  }

  lemma OrderRespectsRealTime(h: seq<Event>)
    requires Legal(h) && Windowed(h)
    ensures RespectsRealTime(h, Order(Ops(h), h))
  {
    var order := Order(Ops(h), h);
    forall i: nat, j: nat, p: nat, q: nat |
      i < j < |h| && h[i].Replied? && h[j].Invoked? && p < |order| && q < |order|
      && order[p] == h[i].session && order[q] == h[j].session
      ensures p < q
    {
      InOrderOfTime(h, i, j, p, q);
    }
  }

  lemma WindowedIsLinearizable(h: seq<Event>)
    requires Legal(h) && Windowed(h)
    ensures Linearizes(h, Order(Ops(h), h))
  {
    var order := Order(Ops(h), h);
    OrderServes(h);
    OrderRespectsRealTime(h);
    forall k: nat, p: nat |
      k < |h| && h[k].Replied? && p < |order| && order[p] == h[k].session && order[p] < |Ops(h)|
      ensures h[k].response == Expected(Ops(h), order, p)
    {
      ReplyIsExpected(h, k, p);
    }
  }

  /** If no call is let in while a write is in flight, whatever reads are, the history is linearizable. */
  lemma GuardedAreLinearizable(steps: seq<Step>, h: seq<Event>)
    requires Guarded(steps) && h == Run(Start, steps).history
    ensures Linearizable(h)
  {
    HistoriesAreLegal(steps);
    GuardedReadsAreWindowed(steps);
    WindowedIsLinearizable(h);
  }
}
