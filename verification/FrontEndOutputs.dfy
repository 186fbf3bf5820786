/** Everything that FrontEnd3 and FrontEnd4 send, said in terms of what they have received and sent before. */
module FrontEndOutputs {
  import opened RegisterMessages
  import opened FrontEndState
  import opened FrontEndRuns

  // ---- What the inputs and the earlier outputs say ----

  /** The call that opened session `s`. */
  function Opener(inputs: seq<Input>, s: SessionId): (call: Input)
    requires s < Calls(inputs)
    ensures call.Call?
  {
    var front, last := inputs[..|inputs| - 1], inputs[|inputs| - 1];
    if last.Call? && s == Calls(front) then last else Opener(front, s)
  }

  function TimeOf(input: Input): Time {
    match input
    case Call(at, _, _) => at
    case Clock(now) => now
    case Reply(_, _, _) => 0
  }

  /** These outputs request something of register `r` for session `s`. */
  ghost predicate Requests(outs: seq<OutEvent>, r: Address, s: SessionId) {
    exists o :: o in outs && o.to == r && o.args.InternalRequest? && o.args.id == s
  }

  /** When register `r` was last sent a request for session `s`. */
  ghost function LastSent(inputs: seq<Input>, sent: seq<seq<OutEvent>>, r: Address, s: SessionId): Time
    requires |inputs| == |sent|
  {
    if inputs == [] then 0
    else if Requests(sent[|sent| - 1], r, s) then TimeOf(inputs[|inputs| - 1])
    else LastSent(inputs[..|inputs| - 1], sent[..|sent| - 1], r, s)
  }

  /** How often register `r` was sent a request for session `s`. */
  ghost function TimesSent(sent: seq<seq<OutEvent>>, r: Address, s: SessionId): nat {
    if sent == [] then 0
    else TimesSent(sent[..|sent| - 1], r, s) + if Requests(sent[|sent| - 1], r, s) then 1 else 0
  }

  lemma SentSnoc(inputs: seq<Input>, sent: seq<seq<OutEvent>>, input: Input, outs: seq<OutEvent>, r: Address, s: SessionId)
    requires |inputs| == |sent|
    ensures LastSent(inputs + [input], sent + [outs], r, s)
         == if Requests(outs, r, s) then TimeOf(input) else LastSent(inputs, sent, r, s)
    ensures TimesSent(sent + [outs], r, s) == TimesSent(sent, r, s) + if Requests(outs, r, s) then 1 else 0
  {
    assert (inputs + [input])[..|inputs|] == inputs && (sent + [outs])[..|sent|] == sent;
  }

  lemma OpenerSnoc(inputs: seq<Input>, input: Input)
    ensures Calls(inputs + [input]) == Calls(inputs) + if input.Call? then 1 else 0
    ensures forall s: SessionId :: s < Calls(inputs) ==> Opener(inputs + [input], s) == Opener(inputs, s)
    ensures input.Call? ==> Opener(inputs + [input], Calls(inputs)) == input
  {
    assert (inputs + [input])[..|inputs|] == inputs;
  }

  // ---- Each entry records the sendings of its request ----

  /** The request of the call, the time of its last sending, and how often it was sent again. */
  ghost predicate Recorded(e: OnGoing, inputs: seq<Input>, sent: seq<seq<OutEvent>>)
    requires |inputs| == |sent|
  {
    && IsRegister(e.register) && e.sessionId < Calls(inputs)
    && e.request == Opener(inputs, e.sessionId).request
    && e.at == LastSent(inputs, sent, e.register, e.sessionId)
    && e.numberOfTries + 1 == TimesSent(sent, e.register, e.sessionId)
  }

  /** By session, and Register1 before Register2. */
  predicate Before(r: Address, s: SessionId, r': Address, s': SessionId) {
    s < s' || (s == s' && r.Register1? && r'.Register2?)
  }

  ghost predicate Sorted(es: seq<OnGoing>) {
    forall i, j :: 0 <= i < j < |es| ==> Before(es[i].register, es[i].sessionId, es[j].register, es[j].sessionId)
  }

  lemma {:induction false} WithoutSorted(es: seq<OnGoing>, from: Address, s: SessionId)
    requires Sorted(es)
    ensures Sorted(Without(es, from, s))
  {
    if es != [] {
      var front := es[..|es| - 1];
      WithoutSorted(front, from, s);
      WithoutMembers(front, from, s);
      var rest := Without(front, from, s);
      forall i | 0 <= i < |rest|
        ensures Before(rest[i].register, rest[i].sessionId, es[|es| - 1].register, es[|es| - 1].sessionId)
      {
        assert rest[i] in front;
      }
    }
  }

  ghost predicate EntriesOk(es: seq<OnGoing>, inputs: seq<Input>, sent: seq<seq<OutEvent>>)
    requires |inputs| == |sent|
  {
    Sorted(es) && forall e :: e in es ==> Recorded(e, inputs, sent)
  }

  /** Nothing was requested for sessions that have not been opened. */
  ghost predicate NothingAhead(inputs: seq<Input>, sent: seq<seq<OutEvent>>) {
    forall r, s: SessionId :: s >= Calls(inputs) ==> TimesSent(sent, r, s) == 0
  }

  lemma RecordedSnoc(e: OnGoing, inputs: seq<Input>, sent: seq<seq<OutEvent>>, input: Input, outs: seq<OutEvent>)
    requires |inputs| == |sent| && Recorded(e, inputs, sent) && !Requests(outs, e.register, e.sessionId)
    ensures Recorded(e, inputs + [input], sent + [outs])
  {
    SentSnoc(inputs, sent, input, outs, e.register, e.sessionId);
    OpenerSnoc(inputs, input);
  }

  lemma NewEntryRecorded(inputs: seq<Input>, sent: seq<seq<OutEvent>>, call: Input, outs: seq<OutEvent>, r: Address)
    requires |inputs| == |sent| && call.Call? && IsRegister(r)
    requires Requests(outs, r, Calls(inputs)) && TimesSent(sent, r, Calls(inputs)) == 0
    ensures Recorded(Entry(r, call.request, Calls(inputs), call.at), inputs + [call], sent + [outs])
  {
    SentSnoc(inputs, sent, call, outs, r, Calls(inputs));
    OpenerSnoc(inputs, call);
  }

  lemma CallEntries(es: seq<OnGoing>, inputs: seq<Input>, sent: seq<seq<OutEvent>>, call: Input, outs: seq<OutEvent>)
    requires |inputs| == |sent| && EntriesOk(es, inputs, sent) && NothingAhead(inputs, sent) && call.Call?
    requires forall r, s :: Requests(outs, r, s) <==> IsRegister(r) && s == Calls(inputs)
    ensures
      var s := Calls(inputs);
      EntriesOk(es + [Entry(Register1, call.request, s, call.at), Entry(Register2, call.request, s, call.at)],
                inputs + [call], sent + [outs])
  {
    var s := Calls(inputs);
    var e1, e2 := Entry(Register1, call.request, s, call.at), Entry(Register2, call.request, s, call.at);
    NewEntryRecorded(inputs, sent, call, outs, Register1);
    NewEntryRecorded(inputs, sent, call, outs, Register2);
    forall e | e in es
      ensures Recorded(e, inputs + [call], sent + [outs]) && e.sessionId < s
    {
      RecordedSnoc(e, inputs, sent, call, outs);
    }
  }

  lemma FewerEntriesOk(es: seq<OnGoing>, es': seq<OnGoing>, inputs: seq<Input>, sent: seq<seq<OutEvent>>, input: Input,
                       outs: seq<OutEvent>)
    requires |inputs| == |sent| && EntriesOk(es, inputs, sent) && Sorted(es')
    requires (forall e :: e in es' ==> e in es) && forall r, s :: !Requests(outs, r, s)
    ensures EntriesOk(es', inputs + [input], sent + [outs])
  {
    forall e | e in es'
      ensures Recorded(e, inputs + [input], sent + [outs])
    {
      RecordedSnoc(e, inputs, sent, input, outs);
    }
  }

  lemma RetryRecorded(e: OnGoing, inputs: seq<Input>, sent: seq<seq<OutEvent>>, now: Time, outs: seq<OutEvent>)
    requires |inputs| == |sent| && Recorded(e, inputs, sent)
    requires Requests(outs, e.register, e.sessionId) <==> Overdue(e, now)
    ensures Recorded(Retry(e, now), inputs + [Clock(now)], sent + [outs])
  {
    SentSnoc(inputs, sent, Clock(now), outs, e.register, e.sessionId);
    OpenerSnoc(inputs, Clock(now));
  }

  ghost predicate HasOverdue(es: seq<OnGoing>, now: Time, r: Address, s: SessionId) {
    exists e :: e in es && Overdue(e, now) && e.register == r && e.sessionId == s
  }

  lemma OverdueIsOwn(es: seq<OnGoing>, now: Time, i: nat)
    requires Sorted(es) && i < |es|
    ensures HasOverdue(es, now, es[i].register, es[i].sessionId) <==> Overdue(es[i], now)
  {
    if e :| e in es && Overdue(e, now) && e.register == es[i].register && e.sessionId == es[i].sessionId {
      var j :| 0 <= j < |es| && es[j] == e;
      assert i == j;
    }
  }

  lemma ClockEntries(es: seq<OnGoing>, inputs: seq<Input>, sent: seq<seq<OutEvent>>, now: Time, outs: seq<OutEvent>)
    requires |inputs| == |sent| && EntriesOk(es, inputs, sent)
    requires forall r, s :: Requests(outs, r, s) <==> HasOverdue(es, now, r, s)
    ensures EntriesOk(Resend(es, now), inputs + [Clock(now)], sent + [outs])
  {
    var es' := Resend(es, now);
    forall e' | e' in es'
      ensures Recorded(e', inputs + [Clock(now)], sent + [outs])
    {
      var i :| 0 <= i < |es'| && es'[i] == e';
      assert es[i] in es;
      OverdueIsOwn(es, now, i);
      RetryRecorded(es[i], inputs, sent, now, outs);
    }
  }

  lemma NothingAheadSnoc(inputs: seq<Input>, sent: seq<seq<OutEvent>>, input: Input, outs: seq<OutEvent>)
    requires |inputs| == |sent| && NothingAhead(inputs, sent)
    requires forall r, s: SessionId :: Requests(outs, r, s) ==> s < Calls(inputs + [input])
    ensures NothingAhead(inputs + [input], sent + [outs])
  {
    OpenerSnoc(inputs, input);
    forall r, s: SessionId | s >= Calls(inputs + [input])
      ensures TimesSent(sent + [outs], r, s) == 0
    {
      SentSnoc(inputs, sent, input, outs, r, s);
    }
  }

  // ---- What the outputs request ----

  lemma ResendRequests(es: seq<OnGoing>, now: Time, r: Address, s: SessionId)
    ensures Requests(ResendEvents(es, now), r, s) <==> HasOverdue(es, now, r, s)
  {
    ResendEventsMembers(es, now);
    if e :| e in es && Overdue(e, now) && e.register == r && e.sessionId == s {
      assert ToRegister(e) in ResendEvents(es, now);
    }
  }

  lemma MoreOutputs(outs: seq<OutEvent>, o: OutEvent, r: Address, s: SessionId)
    requires !o.args.InternalRequest?
    ensures Requests(outs + [o], r, s) <==> Requests(outs, r, s)
  {
  }

  lemma OpenRequests(n: SessionId, request: Request, r: Address, s: SessionId)
    ensures Requests(OpenEvents(n, request), r, s) <==> IsRegister(r) && s == n
  {
    assert OpenEvents(n, request)[0] in OpenEvents(n, request) && OpenEvents(n, request)[1] in OpenEvents(n, request);
  }

  /** FrontEnd3 and FrontEnd4 request the same: both registers at a call, what is overdue at a tick or timer. */
  ghost predicate RequestsOf(fe: State, input: Input, r: Address, s: SessionId) {
    match input
    case Call(_, _, _) => IsRegister(r) && s == fe.nextSessionId
    case Reply(_, _, _) => false
    case Clock(now) => HasOverdue(fe.onGoing, now, r, s)
  }

  lemma OutputRequests(fe: State, input: Input, r: Address, s: SessionId)
    ensures Requests(Outputs3(fe, input), r, s) <==> RequestsOf(fe, input, r, s)
    ensures Requests(Outputs4(fe, input), r, s) <==> RequestsOf(fe, input, r, s)
  {
    match input
    case Call(at, client, request) =>
      OpenRequests(fe.nextSessionId, request, r, s);
      MoreOutputs(OpenEvents(fe.nextSessionId, request), RENEW_TIMER, r, s);
    case Reply(from, id, response) =>
    case Clock(now) =>
      ResendRequests(fe.onGoing, now, r, s);
      MoreOutputs(ResendEvents(fe.onGoing, now), RENEW_TIMER, r, s);
  }

  // ---- Clients of sessions in flight ----

  ghost predicate ClientsOk(fe: State, inputs: seq<Input>) {
    forall s :: s in fe.inFlight ==> s < Calls(inputs) && fe.inFlight[s] == Opener(inputs, s).client
  }

  lemma StepClients(fe: State, inputs: seq<Input>, input: Input)
    requires ClientsOk(fe, inputs) && fe.nextSessionId == Calls(inputs)
    ensures ClientsOk(Step(fe, input), inputs + [input])
  {
    OpenerSnoc(inputs, input);
  }

  // ---- The invariant over runs ----

  ghost predicate Known(fe: State, inputs: seq<Input>, sent: seq<seq<OutEvent>>)
    requires |inputs| == |sent|
  {
    EntriesOk(fe.onGoing, inputs, sent) && ClientsOk(fe, inputs) && NothingAhead(inputs, sent)
  }

  lemma StepKnown(fe: State, inputs: seq<Input>, sent: seq<seq<OutEvent>>, input: Input, outs: seq<OutEvent>)
    requires |inputs| == |sent| && Known(fe, inputs, sent) && Consistent(fe) && fe.nextSessionId == Calls(inputs)
    requires forall r, s :: Requests(outs, r, s) <==> RequestsOf(fe, input, r, s)
    ensures Known(Step(fe, input), inputs + [input], sent + [outs])
  {
    StepClients(fe, inputs, input);
    OpenerSnoc(inputs, input);
    NothingAheadSnoc(inputs, sent, input, outs);
    match input
    case Call(at, client, request) => CallEntries(fe.onGoing, inputs, sent, input, outs);
    case Reply(from, id, response) =>
      WithoutMembers(fe.onGoing, from, id);
      WithoutSorted(fe.onGoing, from, id);
      FewerEntriesOk(fe.onGoing, Settle(fe, from, id).onGoing, inputs, sent, input, outs);
    case Clock(now) => ClockEntries(fe.onGoing, inputs, sent, now, outs);
  }

  lemma {:induction false} RunKnown(inputs: seq<Input>)
    ensures Known(Run(inputs), inputs, Sent3(inputs)) && Known(Run(inputs), inputs, Sent4(inputs))
  {
    if inputs != [] {
      var front, last := inputs[..|inputs| - 1], inputs[|inputs| - 1];
      var fe := Run(front);
      RunKnown(front);
      RunConsistent(front);
      SessionsAreCalls(front);
      forall r, s
        ensures Requests(Outputs3(fe, last), r, s) <==> RequestsOf(fe, last, r, s)
        ensures Requests(Outputs4(fe, last), r, s) <==> RequestsOf(fe, last, r, s)
      {
        OutputRequests(fe, last, r, s);
      }
      StepKnown(fe, front, Sent3(front), last, Outputs3(fe, last));
      StepKnown(fe, front, Sent4(front), last, Outputs4(fe, last));
      assert inputs == front + [last];
    }
  }

  lemma {:induction false} SentAt(inputs: seq<Input>, i: nat)
    requires i < |inputs|
    ensures Sent3(inputs)[i] == Outputs3(Run(inputs[..i]), inputs[i]) && Sent3(inputs)[..i] == Sent3(inputs[..i])
    ensures Sent4(inputs)[i] == Outputs4(Run(inputs[..i]), inputs[i]) && Sent4(inputs)[..i] == Sent4(inputs[..i])
  {
    var front := inputs[..|inputs| - 1];
    if i < |front| {
      SentAt(front, i);
      assert front[..i] == inputs[..i] && front[i] == inputs[i];
    }
  }

  // ---- Calls ----

  /** A call goes to both registers under the next session id, and FrontEnd4 sets a timer of five seconds. */
  lemma CallsAreForwarded(inputs: seq<Input>, i: nat)
    requires i < |inputs| && inputs[i].Call?
    ensures
      var request := InternalRequest(Calls(inputs[..i]), inputs[i].request);
      && Sent3(inputs)[i] == [OutEvent(Register1, request), OutEvent(Register2, request)]
      && Sent4(inputs)[i] == [OutEvent(Register1, request), OutEvent(Register2, request),
                              OutEvent(FrontEnd, Timer(5_000_000_000))]
  {
    SentAt(inputs, i);
    SessionsAreCalls(inputs[..i]);
  }

  // ---- Responses ----

  /** Register `r` has not responded since session `s` was opened. */
  ghost predicate Awaited(past: seq<Input>, r: Address, s: SessionId) {
    IsRegister(r) && s < Calls(past) && r !in Responders(past, s)
  }

  lemma AwaitedIffWaiting(past: seq<Input>, r: Address, s: SessionId)
    requires IsRegister(r)
    ensures Awaited(past, r, s) <==> s in Waiting(Run(past).onGoing, r)
  {
    WaitingIsNotResponded(past, r, s);
  }

  lemma InFlightIffAwaited(past: seq<Input>, s: SessionId)
    ensures s in Run(past).inFlight <==> Awaited(past, Register1, s) || Awaited(past, Register2, s)
  {
    RunConsistent(past);
    AwaitedIffWaiting(past, Register1, s);
    AwaitedIffWaiting(past, Register2, s);
  }

  lemma CompletesIffAwaited(past: seq<Input>, from: Address, s: SessionId)
    ensures Completes(Run(past), from, s) <==> Awaited(past, from, s) && !Awaited(past, Other(from), s)
  {
    RunConsistent(past);
    CompletesIff(Run(past), from, s);
    if IsRegister(from) {
      AwaitedIffWaiting(past, from, s);
      AwaitedIffWaiting(past, Other(from), s);
    }
  }

  /**
   * A response is forwarded exactly when it is the last one awaited, to the client whose call opened the session.
   * FrontEnd3 forwards it to client 0 as well when nothing of its session is awaited.
   */
  lemma ResponsesAreForwarded(inputs: seq<Input>, i: nat)
    requires i < |inputs| && inputs[i].Reply?
    ensures
      var past, from, s, response := inputs[..i], inputs[i].from, inputs[i].id, inputs[i].response;
      && Sent4(inputs)[i] == (if Awaited(past, from, s) && !Awaited(past, Other(from), s) then
                                var c := Opener(past, s).client;
                                [OutEvent(Client(c), ClientResponse(c, response))]
                              else [])
      && Sent3(inputs)[i] == (if Awaited(past, Register1, s) || Awaited(past, Register2, s) then Sent4(inputs)[i]
                              else [OutEvent(Client(0), ClientResponse(0, response))])
  {
    var past, from, s := inputs[..i], inputs[i].from, inputs[i].id;
    SentAt(inputs, i);
    RunKnown(past);
    RunConsistent(past);
    CompletesIffAwaited(past, from, s);
    InFlightIffAwaited(past, s);
    if s in Run(past).inFlight {
      FoundIsImplied(Run(past), from, s);
    }
  }

  /** Whatever FrontEnd4 sends to a client, it sends to the one that called, and it is the response just received. */
  lemma RepliesGoToCallers(inputs: seq<Input>, i: nat, o: OutEvent)
    requires i < |inputs| && o in Sent4(inputs)[i] && o.args.ClientResponse?
    ensures inputs[i].Reply? && inputs[i].id < Calls(inputs[..i])
    ensures o.to == Client(o.args.clientId) && o.args.clientId == Opener(inputs[..i], inputs[i].id).client
    ensures o.args.reply == inputs[i].response
  {
    match inputs[i]
    case Call(_, _, _) => CallsAreForwarded(inputs, i);
    case Reply(_, _, _) => ResponsesAreForwarded(inputs, i);
    case Clock(now) =>
      SentAt(inputs, i);
      ResendEventsMembers(Run(inputs[..i]).onGoing, now);
  }

  // ---- Resends ----

  lemma ResentIffOverdue(past: seq<Input>, sent: seq<seq<OutEvent>>, now: Time, r: Address, s: SessionId, request: Request)
    requires |past| == |sent| && Known(Run(past), past, sent)
    ensures OutEvent(r, InternalRequest(s, request)) in ResendEvents(Run(past).onGoing, now) <==>
      && Awaited(past, r, s) && request == Opener(past, s).request
      && now > LastSent(past, sent, r, s) + 5_000_000_000
  {
    var es := Run(past).onGoing;
    ResendEventsMembers(es, now);
    if e :| e in es && Overdue(e, now) && OutEvent(r, InternalRequest(s, request)) == ToRegister(e) {
      assert Recorded(e, past, sent);
      AwaitedIffWaiting(past, r, s);
    }
    if Awaited(past, r, s) {
      AwaitedIffWaiting(past, r, s);
      var e :| e in es && e.register == r && e.sessionId == s;
      assert Recorded(e, past, sent);
      assert Overdue(e, now) ==> ToRegister(e) in ResendEvents(es, now);
    }
  }

  /**
   * A timer sends a request again exactly when the register has not responded and the request was last sent more
   * than five seconds ago; so does a tick.
   */
  lemma OverdueRequestsAreResent(inputs: seq<Input>, i: nat, r: Address, s: SessionId, request: Request)
    requires i < |inputs| && inputs[i].Clock?
    ensures
      var past := inputs[..i];
      && (OutEvent(r, InternalRequest(s, request)) in Sent4(inputs)[i] <==>
           && Awaited(past, r, s) && request == Opener(past, s).request
           && inputs[i].now > LastSent(past, Sent4(past), r, s) + 5_000_000_000)
      && (OutEvent(r, InternalRequest(s, request)) in Sent3(inputs)[i] <==>
           && Awaited(past, r, s) && request == Opener(past, s).request
           && inputs[i].now > LastSent(past, Sent3(past), r, s) + 5_000_000_000)
  {
    var past := inputs[..i];
    SentAt(inputs, i);
    RunKnown(past);
    ResentIffOverdue(past, Sent3(past), inputs[i].now, r, s, request);
    ResentIffOverdue(past, Sent4(past), inputs[i].now, r, s, request);
  }

  ghost predicate InOrder(outs: seq<OutEvent>) {
    && (forall k :: 0 <= k < |outs| ==> outs[k].args.InternalRequest?)
    && (forall k, l :: 0 <= k < l < |outs| ==> Before(outs[k].to, outs[k].args.id, outs[l].to, outs[l].args.id))
  }

  lemma {:induction false} ResendsInOrder(es: seq<OnGoing>, now: Time)
    requires Sorted(es)
    ensures InOrder(ResendEvents(es, now))
  {
    if es != [] {
      var front, e := es[..|es| - 1], es[|es| - 1];
      ResendsInOrder(front, now);
      ResendEventsMembers(front, now);
      var rest := ResendEvents(front, now);
      forall k | 0 <= k < |rest|
        ensures Before(rest[k].to, rest[k].args.id, e.register, e.sessionId)
      {
        assert rest[k] in rest;
      }
    }
  }

  /** Each request is sent again once, in the order of the sessions; FrontEnd4 adds a timer if there was any. */
  lemma ResendsAreOrdered(inputs: seq<Input>, i: nat)
    requires i < |inputs| && inputs[i].Clock?
    ensures InOrder(Sent3(inputs)[i])
    ensures Sent4(inputs)[i] == if Sent3(inputs)[i] == [] then []
                                else Sent3(inputs)[i] + [OutEvent(FrontEnd, Timer(5_000_000_000))]
  {
    SentAt(inputs, i);
    RunKnown(inputs[..i]);
    ResendsInOrder(Run(inputs[..i]).onGoing, inputs[i].now);
  }

  // ---- Two sendings of one request are more than five seconds apart ----

  lemma {:induction false} SpacedFrom(inputs: seq<Input>, sent: seq<seq<OutEvent>>, i: nat, r: Address, s: SessionId)
    requires |inputs| == |sent| && i < |inputs| && Requests(sent[i], r, s)
    requires forall k: nat :: k < |inputs| && Requests(sent[k], r, s) && TimesSent(sent[..k], r, s) > 0 ==>
      TimeOf(inputs[k]) > LastSent(inputs[..k], sent[..k], r, s) + 5_000_000_000
    ensures LastSent(inputs, sent, r, s) >= TimeOf(inputs[i]) && TimesSent(sent, r, s) > 0
  {
    var n := |inputs| - 1;
    if i < n {
      forall k: nat | k < n && Requests(sent[..n][k], r, s) && TimesSent(sent[..n][..k], r, s) > 0
        ensures TimeOf(inputs[..n][k]) > LastSent(inputs[..n][..k], sent[..n][..k], r, s) + 5_000_000_000
      {
        assert sent[..n][..k] == sent[..k] && inputs[..n][..k] == inputs[..k];
      }
      SpacedFrom(inputs[..n], sent[..n], i, r, s);
    }
  }

  lemma SentLater(inputs: seq<Input>, k: nat, r: Address, s: SessionId)
    requires k < |inputs| && Requests(Sent4(inputs)[k], r, s) && TimesSent(Sent4(inputs)[..k], r, s) > 0
    ensures TimeOf(inputs[k]) > LastSent(inputs[..k], Sent4(inputs)[..k], r, s) + 5_000_000_000
  {
    SentAt(inputs, k);
    RunKnown(inputs[..k]);
    SessionsAreCalls(inputs[..k]);
    OutputRequests(Run(inputs[..k]), inputs[k], r, s);
    var o :| o in Sent4(inputs)[k] && o.to == r && o.args.InternalRequest? && o.args.id == s;
    if inputs[k].Clock? {
      OverdueRequestsAreResent(inputs, k, r, s, o.args.request);
    }
  }

  lemma SentLaterAll(inputs: seq<Input>, r: Address, s: SessionId)
    ensures forall k: nat :: k < |inputs| && Requests(Sent4(inputs)[k], r, s) && TimesSent(Sent4(inputs)[..k], r, s) > 0 ==>
      TimeOf(inputs[k]) > LastSent(inputs[..k], Sent4(inputs)[..k], r, s) + 5_000_000_000
  {
    forall k: nat | k < |inputs| && Requests(Sent4(inputs)[k], r, s) && TimesSent(Sent4(inputs)[..k], r, s) > 0
      ensures TimeOf(inputs[k]) > LastSent(inputs[..k], Sent4(inputs)[..k], r, s) + 5_000_000_000
    {
      SentLater(inputs, k, r, s);
    }
  }

  /** Whatever the inputs and their times: two requests to one register for one session are more than five seconds apart. */
  lemma ResendsAreSpaced(inputs: seq<Input>, i: nat, j: nat, r: Address, s: SessionId)
    requires i < j < |inputs| && Requests(Sent4(inputs)[i], r, s) && Requests(Sent4(inputs)[j], r, s)
    ensures TimeOf(inputs[j]) > TimeOf(inputs[i]) + 5_000_000_000
  {
    var past := inputs[..j];
    SentAt(inputs, j);
    SentLaterAll(past, r, s);
    assert Sent4(past)[i] == Sent4(inputs)[..j][i] == Sent4(inputs)[i];
    SpacedFrom(past, Sent4(past), i, r, s);
    SentLater(inputs, j, r, s);
  }
}
