/** The state that FrontEnd3 and FrontEnd4 share, and what each of their operations does to it. */
module FrontEndState {
  import opened RegisterMessages

  datatype State = State(onGoing: seq<OnGoing>, inFlight: map<SessionId, ClientId>, nextSessionId: nat)

  const Initial := State([], map[], 0)

  // ---- Operations ----

  function Entry(r: Address, request: Request, s: SessionId, at: Time): OnGoing {
    OnGoing(r, request, s, at, 0)
  }

  function Open(fe: State, at: Time, client: ClientId, request: Request): State {
    var s := fe.nextSessionId;
    State(fe.onGoing + [Entry(Register1, request, s, at), Entry(Register2, request, s, at)],
          fe.inFlight[s := client],
          s + 1)
  }

  function OpenEvents(s: SessionId, request: Request): seq<OutEvent> {
    [OutEvent(Register1, InternalRequest(s, request)), OutEvent(Register2, InternalRequest(s, request))]
  }

  /** The entries that are left once register `from` has responded for session `s`. */
  function Without(es: seq<OnGoing>, from: Address, s: SessionId): seq<OnGoing> {
    if es == [] then [] else
      var rest := Without(es[..|es| - 1], from, s);
      var e := es[|es| - 1];
      if e.sessionId == s && e.register == from then rest else rest + [e]
  }

  predicate HasSession(es: seq<OnGoing>, s: SessionId) {
    es != [] && (es[|es| - 1].sessionId == s || HasSession(es[..|es| - 1], s))
  }

  predicate HasEntry(es: seq<OnGoing>, r: Address, s: SessionId) {
    es != [] &&
    ((es[|es| - 1].sessionId == s && es[|es| - 1].register == r) || HasEntry(es[..|es| - 1], r, s))
  }

  function Settle(fe: State, from: Address, s: SessionId): State {
    if s !in fe.inFlight then fe else
      var rest := Without(fe.onGoing, from, s);
      State(rest, if HasSession(rest, s) then fe.inFlight else fe.inFlight - {s}, fe.nextSessionId)
  }

  /** FrontEnd4 replies when `from` was awaited and is the last one awaited. */
  predicate Completes(fe: State, from: Address, s: SessionId) {
    s in fe.inFlight && HasEntry(fe.onGoing, from, s) && !HasSession(Without(fe.onGoing, from, s), s)
  }

  /** Go's zero value for a client that the map does not know. */
  function ClientOf(fe: State, s: SessionId): ClientId {
    if s in fe.inFlight then fe.inFlight[s] else 0
  }

  function Retry(e: OnGoing, at: Time): OnGoing {
    if Overdue(e, at) then e.(at := at, numberOfTries := e.numberOfTries + 1) else e
  }

  function Resend(es: seq<OnGoing>, at: Time): (r: seq<OnGoing>)
    ensures |r| == |es| && forall i :: 0 <= i < |es| ==> r[i] == Retry(es[i], at)
  {
    seq(|es|, i requires 0 <= i < |es| => Retry(es[i], at))
  }

  function ResendEvents(es: seq<OnGoing>, at: Time): seq<OutEvent> {
    if es == [] then [] else
      var rest := ResendEvents(es[..|es| - 1], at);
      var e := es[|es| - 1];
      if Overdue(e, at) then rest + [ToRegister(e)] else rest
  }

  function Elapse(fe: State, at: Time): State {
    fe.(onGoing := Resend(fe.onGoing, at))
  }

  // ---- The waiting sets: which sessions still wait for register r ----

  function Waiting(es: seq<OnGoing>, r: Address): set<SessionId> {
    set e | e in es && e.register == r :: e.sessionId
  }

  lemma {:induction false} WithoutMembers(es: seq<OnGoing>, from: Address, s: SessionId)
    ensures forall e :: e in Without(es, from, s) <==> e in es && !(e.sessionId == s && e.register == from)
  {
    if es != [] {
      WithoutMembers(es[..|es| - 1], from, s);
      assert es == es[..|es| - 1] + [es[|es| - 1]];
    }
  }

  /** One more entry, as the filter loop of `RemoveSession` sees it. */
  lemma WithoutStep(es: seq<OnGoing>, k: nat, from: Address, s: SessionId)
    requires k < |es|
    ensures
      var matches := es[k].sessionId == s && es[k].register == from;
      var before, after := Without(es[..k], from, s), Without(es[..k + 1], from, s);
      && after == (if matches then before else before + [es[k]])
      && (HasSession(after, s) <==> HasSession(before, s) || (!matches && es[k].sessionId == s))
      && (HasEntry(es[..k + 1], from, s) <==> HasEntry(es[..k], from, s) || matches)
  {
    assert es[..k + 1][..k] == es[..k];
    var before := Without(es[..k], from, s);
    assert (before + [es[k]])[..|before|] == before;
  }

  lemma {:induction false} ResendEventsMembers(es: seq<OnGoing>, at: Time)
    ensures forall e :: e in es && Overdue(e, at) ==> ToRegister(e) in ResendEvents(es, at)
    ensures forall o :: o in ResendEvents(es, at) ==> exists e :: e in es && Overdue(e, at) && o == ToRegister(e)
    ensures (forall e :: e in es ==> !Overdue(e, at)) ==> ResendEvents(es, at) == []
  {
    if es != [] {
      ResendEventsMembers(es[..|es| - 1], at);
      assert es == es[..|es| - 1] + [es[|es| - 1]];
    }
  }

  lemma WaitingSnoc(es: seq<OnGoing>, e: OnGoing, r: Address)
    ensures Waiting(es + [e], r) == Waiting(es, r) + if e.register == r then {e.sessionId} else {}
  {
    assert forall x :: x in es + [e] <==> x in es || x == e;
  }

  lemma WithoutWaiting(es: seq<OnGoing>, from: Address, s: SessionId, r: Address)
    ensures Waiting(Without(es, from, s), r) == if r == from then Waiting(es, r) - {s} else Waiting(es, r)
  {
    WithoutMembers(es, from, s);
  }

  lemma OpenWaiting(fe: State, at: Time, client: ClientId, request: Request, r: Address)
    ensures Waiting(Open(fe, at, client, request).onGoing, r)
         == Waiting(fe.onGoing, r) + if IsRegister(r) then {fe.nextSessionId} else {}
  {
    var s := fe.nextSessionId;
    var e1, e2 := Entry(Register1, request, s, at), Entry(Register2, request, s, at);
    WaitingSnoc(fe.onGoing, e1, r);
    WaitingSnoc(fe.onGoing + [e1], e2, r);
    assert fe.onGoing + [e1, e2] == fe.onGoing + [e1] + [e2];
  }

  lemma ResendWaiting(es: seq<OnGoing>, at: Time, r: Address)
    ensures Waiting(Resend(es, at), r) == Waiting(es, r)
  {
    var es' := Resend(es, at);
    forall s | s in Waiting(es, r) ensures s in Waiting(es', r) {
      var i :| 0 <= i < |es| && es[i].register == r && es[i].sessionId == s;
      assert es'[i] in es';
    }
    forall s | s in Waiting(es', r) ensures s in Waiting(es, r) {
      var i :| 0 <= i < |es'| && es'[i].register == r && es'[i].sessionId == s;
      assert es[i] in es;
    }
  }

  // ---- The invariant ----

  ghost predicate DistinctEntries(es: seq<OnGoing>) {
    forall i, j :: 0 <= i < j < |es| ==> es[i].sessionId != es[j].sessionId || es[i].register != es[j].register
  }

  ghost predicate Consistent(fe: State) {
    && DistinctEntries(fe.onGoing)
    && (forall e :: e in fe.onGoing ==> IsRegister(e.register))
    && Waiting(fe.onGoing, Register1) + Waiting(fe.onGoing, Register2) == fe.inFlight.Keys
    && (forall s :: s in fe.inFlight ==> s < fe.nextSessionId)
  }

  lemma {:induction false} HasEntryIffWaiting(es: seq<OnGoing>, r: Address, s: SessionId)
    ensures HasEntry(es, r, s) <==> s in Waiting(es, r)
  {
    if es != [] {
      var front, e := es[..|es| - 1], es[|es| - 1];
      HasEntryIffWaiting(front, r, s);
      WaitingSnoc(front, e, r);
      assert es == front + [e];
    }
  }

  lemma {:induction false} HasSessionIffWaiting(es: seq<OnGoing>, s: SessionId)
    requires forall e :: e in es ==> IsRegister(e.register)
    ensures HasSession(es, s) <==> s in Waiting(es, Register1) || s in Waiting(es, Register2)
  {
    if es != [] {
      var front, e := es[..|es| - 1], es[|es| - 1];
      HasSessionIffWaiting(front, s);
      WaitingSnoc(front, e, Register1);
      WaitingSnoc(front, e, Register2);
      assert es == front + [e];
    }
  }

  /** A consistent frontend replies exactly when `from` was awaited and the other register no longer is. */
  lemma CompletesIff(fe: State, from: Address, s: SessionId)
    requires Consistent(fe)
    ensures Completes(fe, from, s)
       <==> IsRegister(from) && s in Waiting(fe.onGoing, from) && s !in Waiting(fe.onGoing, Other(from))
  {
    WithoutMembers(fe.onGoing, from, s);
    var rest := Without(fe.onGoing, from, s);
    HasSessionIffWaiting(rest, s);
    HasEntryIffWaiting(fe.onGoing, from, s);
    WithoutWaiting(fe.onGoing, from, s, Register1);
    WithoutWaiting(fe.onGoing, from, s, Register2);
  }

  lemma {:induction false} WithoutDistinct(es: seq<OnGoing>, from: Address, s: SessionId)
    requires DistinctEntries(es)
    ensures DistinctEntries(Without(es, from, s))
  {
    if es != [] {
      var front := es[..|es| - 1];
      WithoutDistinct(front, from, s);
      WithoutMembers(front, from, s);
      var rest := Without(front, from, s);
      forall i | 0 <= i < |rest|
        ensures rest[i].sessionId != es[|es| - 1].sessionId || rest[i].register != es[|es| - 1].register
      {
        assert rest[i] in front;
      }
    }
  }

  lemma OpenConsistent(fe: State, at: Time, client: ClientId, request: Request)
    requires Consistent(fe)
    ensures Consistent(Open(fe, at, client, request))
  {
    OpenWaiting(fe, at, client, request, Register1);
    OpenWaiting(fe, at, client, request, Register2);
    forall e | e in fe.onGoing ensures e.sessionId < fe.nextSessionId {
      assert e.sessionId in Waiting(fe.onGoing, e.register);
    }
  }

  lemma SettleWaiting(fe: State, from: Address, s: SessionId)
    requires Consistent(fe)
    ensures forall r :: IsRegister(r) ==>
      Waiting(Settle(fe, from, s).onGoing, r) == if r == from then Waiting(fe.onGoing, r) - {s} else Waiting(fe.onGoing, r)
    ensures Settle(fe, from, s).inFlight == if Completes(fe, from, s) then fe.inFlight - {s} else fe.inFlight
  {
    WithoutMembers(fe.onGoing, from, s);
    HasSessionIffWaiting(Without(fe.onGoing, from, s), s);
    WithoutWaiting(fe.onGoing, from, s, Register1);
    WithoutWaiting(fe.onGoing, from, s, Register2);
    CompletesIff(fe, from, s);
  }

  lemma SettleConsistent(fe: State, from: Address, s: SessionId)
    requires Consistent(fe)
    ensures Consistent(Settle(fe, from, s))
  {
    SettleWaiting(fe, from, s);
    CompletesIff(fe, from, s);
    WithoutMembers(fe.onGoing, from, s);
    WithoutDistinct(fe.onGoing, from, s);
  }

  lemma ElapseConsistent(fe: State, at: Time)
    requires Consistent(fe)
    ensures Consistent(Elapse(fe, at))
  {
    ResendWaiting(fe.onGoing, at, Register1);
    ResendWaiting(fe.onGoing, at, Register2);
  }

  // ---- Counting entries ----

  lemma {:induction false} EntriesAreWaiting(es: seq<OnGoing>)
    requires DistinctEntries(es)
    requires forall e :: e in es ==> IsRegister(e.register)
    ensures |es| == |Waiting(es, Register1)| + |Waiting(es, Register2)|
  {
    if es != [] {
      var front, e := es[..|es| - 1], es[|es| - 1];
      EntriesAreWaiting(front);
      assert es == front + [e];
      WaitingSnoc(front, e, Register1);
      WaitingSnoc(front, e, Register2);
      assert e.sessionId !in Waiting(front, e.register);
    }
  }

  lemma SubsetSize<T>(a: set<T>, b: set<T>)
    requires a <= b
    ensures |a| <= |b|
  {
    assert b == a + (b - a);
  }

  /** Each session in flight has one or two entries. */
  lemma EntriesPerSession(fe: State)
    requires Consistent(fe)
    ensures |fe.inFlight| <= |fe.onGoing| <= 2 * |fe.inFlight|
  {
    EntriesAreWaiting(fe.onGoing);
    var w1, w2 := Waiting(fe.onGoing, Register1), Waiting(fe.onGoing, Register2);
    SubsetSize(w1, fe.inFlight.Keys);
    SubsetSize(w2, fe.inFlight.Keys);
    assert |w1 + w2| + |w1 * w2| == |w1| + |w2|;
  }
}
