# Verified model of a distributed-systems test kit

This project models, in Dafny 4.11, the reactors and the tools that carry the protocol and the arithmetic of the
repository, and proves what they promise over every run, every input and every interleaving.

- **The replicated register** (`RegisterMessages`, `FrontEndState`, `OnGoingSlice`, `FrontEnd1` to `FrontEnd4`, `Register`,
  `FrontEndRuns`, `FrontEndOutputs`, `EarlyFrontEndOutputs`, `RegisterProtocol`, `RegisterGuarantees`, `SequentialRefinement`, `Linearizability`,
  `RegisterAgreement`, `GuardedCalls`, `GuardedOrder`, `NewOldInversion`, `OverlappingWrites`, `LinearizabilityIff`,
  `RegisterProgress`, `RegisterTimers`, `RegisterStranding`, `UnsafeFrontEnds`). A frontend forwards each client request
  to two registers, resends on a timer and answers once both have responded. Every reactor is a class whose methods are
  proved against a functional step; the frontends keep `OnGoing` as a Go slice, a buffer of which a prefix is in use, and
  filter it in place. `RegisterProtocol` joins FrontEnd4 and two registers over a network that loses, duplicates and
  reorders packets, and `UnsafeFrontEnds` FrontEnd1 and FrontEnd2 over one that loses and reorders them. The client-side
  history of calls and replies is part of the state, and the guarantees are statements about that history.
- **The broadcast** (`BroadcastNode`, `BroadcastProtocol`, `BroadcastCounts`, `BroadcastDelivery`, `BroadcastQuiescence`,
  `BroadcastTimers`). One node type with five delivery rounds, over any finite directed graph, from the initial state that
  the constructors build.
- **The sequence diagrams** (`TextBuilder`, `SequenceLayout`, `SequenceDrawing`, `DiagramDrawing`, `SequenceAlignment`,
  `SequenceCells`, `SequenceLines`, `SequenceDiagrams`, `SequenceEvents`). `SequenceLayout` says what a diagram is: rows of
  visible cells in columns. `SequenceDrawing` and `DiagramDrawing` are the loops that write it, with all their branches and
  repeat counts; `SequenceAlignment` says where the cells are, and `SequenceCells` which character each of them shows.
- **The batching logger** (`Framing`, `Logger`, `LoggerDelivery`). The framing from a client to a row, and a producer and a worker around a
  bounded queue, as interleaved steps.
- **The debugger's replay and the event loop's clock** (`HeapReplay`, `LamportClock`).

Conventions that hold throughout: integers are unbounded; a run is a list of steps applied to a start state, and a step that
is not possible leaves the state as it is; a Go panic or `log.Fatal` is a precondition or, where it is reachable, a state of
its own (`Exited`, `panicked`).

Results that differ from what one may expect of the code:

- FrontEnd3 replies to client 0 when a response arrives for a session that is not in flight, so it agrees with FrontEnd4
  exactly on the runs without such responses (`Lockstep`). Its final `found` test is otherwise implied (`FoundIsImplied`).
- FrontEnd4 with its registers is linearizable exactly under a guard that lets no call in while a write is in flight;
  a write may be called while reads are (`LinearizableIff`, `GuardedAreLinearizable`). If moreover a write is called only
  while nothing is in flight, the order of the replies is a linearization (`WritesAloneAreLinearizable`). Two reads during
  a write can be answered in the wrong order (`ReadsDuringWriteMayInvert`). As long as writes do not overlap each other,
  the registers differ by no more than the pending write (`RegistersAgree`); after any past, two overlapping writes can
  leave them in opposite orders for ever (`OverlappingWritesMayDisagree`).
- A resend timer that fires exactly on time can strand a session (`OnTimeTimerStrands`). In every reachable state everyone
  can still be answered without another call exactly if some timer is pending or each awaited response, or the request for
  it, is under way (`AnswerableIff`); with all packets lost, exactly if nothing is in flight or some timer is pending
  (`StrandedIff`). Timers that always fire strictly late keep one for every awaited response (`EveryEntryIsTimed`).
- FrontEnd1 always answers after one register alone, FrontEnd2 after both exactly if the second response has another
  sender than the first (`AnswersAfterOneResponder`, `AnswerIsSoundIff`). So after any past of either one, over a network
  that only loses and reorders packets, a read can miss a write that was acknowledged before it (`StaleRead`).
- A diagram with a single node is not aligned: its message rows are half a box too long
  (`MessageRowEndsAtLastLifelineIff`).
- Lamport's clock condition holds exactly if no envelope reaches a loop that has logged a time later than both the
  envelope's and the loop's own clock (`ClockConditionIff`); only a log reset makes this possible (`ClockCondition`).
- The replay of heap diffs is right for everything that may happen at given times exactly if the times are distinct
  (`ReplayIsRightIffTimesAreDistinct`).
- One malformed entry in the logger's batch or queue keeps what follows it from ever being committed
  (`AllCommittedIffWellFormed`).

## Model

| member | source | states |
|---|---|---|
| `OnGoingSlice.FilterInPlace` | src/sut/register/frontend4.go:67-87 | the filter into `OnGoing[:0]` keeps exactly the entries other than the responder's, in order, although it overwrites the buffer it reads; `noMore` and `found` tell whether the session still waits and whether this response was awaited |
| `OnGoingSlice.ResendInPlace` | src/sut/register/frontend4.go:132-142 | every entry strictly older than the resend timer is restarted in place and its request sent again, no other entry changes |
| `OnGoingSlice.Append` | src/sut/register/frontend4.go:31-44 | appending to a slice keeps its contents and adds the entry, in place or in a larger copy |
| `FrontEnd4Reactor.FrontEnd4.constructor` | src/sut/register/frontend4.go:18-21 | a new frontend has no entry, no session and the session id 0 |
| `FrontEnd4Reactor.FrontEnd4.ReceiveClient` | src/sut/register/frontend4.go:23-62 | a call opens the next session with one entry for each register and sends both requests and a timer |
| `FrontEnd4Reactor.FrontEnd4.RemoveSession` | src/sut/register/frontend4.go:64-91 | settles one response: its entry goes, the session goes with its last entry, and the result says whether this response was awaited and the last one |
| `FrontEnd4Reactor.FrontEnd4.ReceiveResponse` | src/sut/register/frontend4.go:98-113 | the client that opened the session gets a reply exactly when the response completes it |
| `FrontEnd4Reactor.FrontEnd4.Timer` | src/sut/register/frontend4.go:129-154 | restarts the overdue entries, resends their requests and renews the timer if there were any |
| `FrontEnd4Reactor.TimerRenewedIffOverdue` | src/sut/register/frontend4.go:144-151 | the timer is renewed exactly when some entry was overdue |
| `FrontEndState.ResendEventsMembers` | src/sut/register/frontend4.go:132-142 | the requests sent again are exactly those of the overdue entries, and there are none when no entry is overdue |
| `FrontEndState.CompletesIff` | src/sut/register/frontend4.go:64-91 | in a consistent state a response completes its session exactly when it comes from a register that is awaited while the other register no longer is |
| `FrontEndState.OpenConsistent` | src/sut/register/frontend4.go:23-44 | a call keeps the invariant: distinct entries, only for registers, the waiting sessions are those in flight, all below the next id |
| `FrontEndState.SettleConsistent` | src/sut/register/frontend4.go:64-91 | a response, awaited or not, keeps the invariant |
| `FrontEndState.ElapseConsistent` | src/sut/register/frontend4.go:129-154 | a timer keeps the invariant |
| `FrontEndState.SettleWaiting` | src/sut/register/frontend4.go:64-91 | a response removes its session from what is awaited of its sender and from nothing else; the session leaves `InFlight` exactly when it completes |
| `FrontEndState.EntriesPerSession` | src/sut/register/frontend4.go:31-44 | each session in flight has one or two entries: InFlight <= OnGoing <= 2 * InFlight in size |
| `FrontEnd3Reactor.FrontEnd3.RemoveSession` | src/sut/register/frontend3.go:56-80 | as in FrontEnd4, but the result also says "no more" for a session that is not in flight |
| `FrontEnd3Reactor.FrontEnd3.ReceiveResponse` | src/sut/register/frontend3.go:82-112 | replies whenever no entry of the session is left, to client 0 if the session is unknown |
| `FrontEnd3Reactor.FrontEnd3.Tick` | src/sut/register/frontend3.go:114-132 | restarts and resends the overdue entries at a tick, without a timer |
| `FrontEndRuns.RunFrontEnd4` | src/sut/register/frontend4.go:93-154 | the state and the outputs of the mutable reactor after any inputs are those of the functional run |
| `FrontEndRuns.RunFrontEnd3` | src/sut/register/frontend3.go:82-132 | the same for FrontEnd3, over the same functional run |
| `FrontEndRuns.RunConsistent` | src/sut/register/frontend4.go:23-154 | the invariant holds after any inputs whatsoever, strays and forgeries included |
| `FrontEndRuns.FoundIsImplied` | src/sut/register/frontend4.go:90 | for a session in flight FrontEnd4's additional `found` test never changes the outcome |
| `FrontEndRuns.Lockstep` | src/sut/register/frontend3.go:56-80 | on equal inputs FrontEnd3 and FrontEnd4 send the same messages, timers aside, exactly when no response arrives for a session that is not in flight |
| `FrontEndRuns.AnswersIffBothResponded` | src/sut/register/frontend4.go:64-113 | each session is answered at most once, and exactly when both registers have responded since it was opened |
| `FrontEndRuns.WaitingIsNotResponded` | src/sut/register/frontend4.go:64-91 | the frontend waits for a register exactly when the session is open and that register has not responded |
| `FrontEndOutputs.CallsAreForwarded` | src/sut/register/frontend4.go:46-61 | in every run of FrontEnd3 and FrontEnd4 a call is sent to both registers under the number of calls before it, and FrontEnd4 sets a timer of five seconds |
| `FrontEndOutputs.ResponsesAreForwarded` | src/sut/register/frontend4.go:98-113 | a response is forwarded exactly when its sender is still awaited and the other register no longer is, to the address of the client whose call opened the session; FrontEnd3 also forwards it to client 0 when nothing of its session is awaited |
| `FrontEndOutputs.RepliesGoToCallers` | src/sut/register/frontend4.go:103-110 | whatever FrontEnd4 sends to a client goes to the one that made the call, and is the response just received |
| `FrontEndOutputs.OverdueRequestsAreResent` | src/sut/register/frontend4.go:132-142 | a timer or tick sends a request again exactly when its register has not responded and it was last sent, by a call, timer or tick, more than five seconds ago; and it is the request of the call |
| `FrontEndOutputs.ResendsAreOrdered` | src/sut/register/frontend4.go:129-154 | each request is sent again once, in the order of the sessions and Register1 first, and FrontEnd4 adds a timer of five seconds if there was any |
| `FrontEndOutputs.ResendsAreSpaced` | src/sut/register/frontend4.go:133-135 | whatever the inputs and their times, two requests to one register for one session are more than five seconds apart |
| `FrontEndOutputs.RunKnown` | src/sut/register/frontend4.go:31-44 | after any inputs each entry holds the request of its call, the time at which it was last sent and how often it was sent again, and each session in flight the client that called |
| `RegisterReactor.Register.Receive` | src/sut/register/register.go:22-74 | a read returns the list; a write is appended with its session unless the session is already there, and acknowledged either way |
| `RegisterReactor.HandleKeeps` | src/sut/register/register.go:39-50 | sessions stay duplicate-free and match the values position by position, and both only grow |
| `RegisterReactor.HandleTwice` | src/sut/register/register.go:40-50 | delivering a request twice has the effect of delivering it once |
| `RegisterProtocol.RunKeeps` | src/sut/register/example_test.go:15-21 | the whole invariant of frontend, registers, network and history holds in every run with any losses, duplicates and reorderings |
| `RegisterProtocol.AnswerOk` | src/sut/register/register.go:29-59 | what a register sends back is a prefix of its list with every write acknowledged before the call, or an acknowledgement of a write it holds |
| `RegisterProtocol.AckedByBoth` | src/sut/register/frontend4.go:64-110 | a response that completes a write finds the write in both registers |
| `RegisterGuarantees.HistoriesAreLegal` | src/sut/register/frontend4.go:93-123 | every observable history is legal: calls open consecutive sessions, each reply goes once to the caller of an open session, and its contents are explained by distinct earlier writes including all those acknowledged before the call |
| `RegisterGuarantees.RepliesAreUnique` | src/sut/register/frontend4.go:83-90 | no session is replied to twice |
| `RegisterGuarantees.ReadsAreFresh` | src/sut/register/frontend4.go:64-110 | with any number of overlapping clients, a read's reply contains every write acknowledged before the read was invoked, whichever register's response was returned |
| `RegisterGuarantees.LegalReadsAreFresh` | src/sut/register/frontend4.go:64-110 | freshness follows from the legality of a history alone |
| `RegisterGuarantees.AckedWritesAreDurable` | src/sut/register/register.go:39-59 | an acknowledged write is in both registers, at exactly one position, with its own value |
| `RegisterGuarantees.RegistersGrow` | src/sut/register/register.go:47-50 | over any continuation both registers only grow at the end, so what is durable stays so |
| `RegisterGuarantees.WritesAppliedOnce` | src/sut/register/register.go:40-50 | in every run a register holds each write at most once and nothing that no client asked for |
| `RegisterGuarantees.RequestsAreConserved` | src/sut/register/frontend4.go:23-113 | client requests = client replies + sessions in flight, and one or two awaited responses for each of the latter |
| `SequentialRefinement.RefinesListIfWritesAlone` | src/sut/register/frontend4.go:23-123 | in every run in which a write is issued only while nothing is in flight, and a read only while no write is, the history is that of a single append-only list |
| `SequentialRefinement.ReadsReturnAckedWrites` | src/sut/register/frontend4.go:64-110 | in such a run every read returns exactly the acknowledged writes, in the order of their acknowledgements |
| `SequentialRefinement.AnsweredWritesAreAcked` | src/sut/register/frontend4.go:99-113 | a write that is no longer in flight has been acknowledged, not answered otherwise |
| `Linearizability.WritesAloneAreLinearizable` | src/sut/register/frontend4.go:23-123 | the history of every such run is linearizable in the order of its replies: that order respects real time and explains every response |
| `GuardedCalls.GuardedReadsAreWindowed` | src/sut/register/frontend4.go:64-110 | in every run in which nothing is called while a write is in flight, whatever reads are, a read returns the first writes in the order of their calls: at least all that were called before it and none called after its reply |
| `GuardedOrder.GuardedAreLinearizable` | src/sut/register/frontend4.go:23-123 | the history of every such run is linearizable |
| `LinearizabilityIff.LinearizableIff` | src/sut/register/frontend4.go:23-123 | for a guard that may let reads, and may let writes, in while a write is in flight: every history of every run that obeys it is linearizable if and only if it lets in neither |
| `Linearizability.LaterReadsSeeMore` | src/sut/register/frontend4.go:64-110 | in any linearizable history a read invoked after another one was answered returns at least as much |
| `NewOldInversion.ReadAnsweredBy` | src/sut/register/frontend4.go:64-110 | from every state a new read can be answered by the register of one's choice, the one that responds last |
| `NewOldInversion.PendingWriteMayInvert` | src/sut/register/frontend4.go:64-110 | from every reachable state with equal registers and a write that neither has applied, some continuation with two reads in turn has a history that is not linearizable |
| `NewOldInversion.ReadsDuringWriteMayInvert` | src/sut/register/frontend4.go:64-110 | so after any past in which writes did not overlap each other and none is pending, whatever reads are in flight, one write and two reads during it suffice |
| `RegisterAgreement.RunInOrder` | src/sut/register/register.go:39-50 | in every run in which no write is issued while another write is in flight, and reads overlap anything, each register holds all writes in the order of their calls, but perhaps the single pending one |
| `RegisterAgreement.RegistersAgree` | src/sut/register/register.go:39-50 | so in every such run the registers are equal, or one is the other followed by the single pending write |
| `RegisterProgress.EveryCallCanBeAnswered` | src/sut/register/frontend4.go:129-154 | from every reachable state, even with all packets lost, there is a continuation of late timers and deliveries alone after which every call so far has been answered |
| `RegisterProgress.SettleOne` | src/sut/register/frontend4.go:129-154 | timer, delivery, service and collection settle one awaited response from any contents of the network |
| `RegisterProgress.Drain` | src/sut/register/frontend4.go:129-154 | repeating this empties `OnGoing`; the number of awaited responses is the decreasing measure |
| `RegisterTimers.EveryEntryIsTimed` | src/sut/register/frontend4.go:129-154 | with the pending timers as state: if every timer fires strictly after it is due, every awaited response always has a pending timer due no earlier than the response |
| `RegisterTimers.FireKeepsTimersIff` | src/sut/register/frontend4.go:144-151 | a timer that fires on time or later leaves every awaited response with a timer exactly when one of them is overdue or each has another timer |
| `RegisterStranding.PendingTimersCanAnswerAll` | src/sut/register/frontend4.go:129-154 | as long as some timer is pending, whatever happened before and even with all packets lost, the pending timers and the deliveries that they cause can answer every call |
| `RegisterStranding.DeliverAll` | src/sut/register/frontend4.go:98-113 | if each awaited response, or the request for it, is under way, deliveries alone answer every call |
| `RegisterStranding.AnswerableIff` | src/sut/register/frontend4.go:129-154 | in every reachable state: everyone can be answered without another call if and only if some timer is pending or each awaited response, or the request for it, is under way; losing and duplicating packets do not help |
| `RegisterStranding.StrandedIff` | src/sut/register/frontend4.go:144-151 | with all packets lost, everyone can be answered by timers and deliveries if and only if nothing is in flight or some timer is pending |
| `RegisterStranding.OnTimeTimerStrands` | src/sut/register/frontend4.go:133-144 | if the only pending timer fires exactly when it is due with nothing overdue, a loss strands the sessions in flight: without a new call nothing changes any more |
| `RegisterStranding.AnyCallMayBeStranded` | src/sut/register/frontend4.go:55-60 | every call on an idle frontend without timers can meet that fate |
| `OverlappingWrites.RegistersMayDisagreeForEver` | src/sut/register/register.go:39-50 | from every reachable state with two writes in flight that neither register holds, some continuation acknowledges both, and in everything that follows the registers hold them in opposite orders |
| `OverlappingWrites.OverlappingWritesMayDisagree` | src/sut/register/register.go:39-50 | after any past, two overlapping writes of any values by any clients can bring this about |
| `FrontEnd2Reactor.FrontEnd2.ReceiveClient` | src/sut/register/frontend2.go:30-64 | opens a session with two entries and clears its response flag |
| `FrontEnd2Reactor.FrontEnd2.RemoveSession` | src/sut/register/frontend2.go:66-84 | removes the session and all its entries, in place |
| `FrontEnd2Reactor.FrontEnd2.ReceiveResponse` | src/sut/register/frontend2.go:86-120 | the first response sets the flag, a later one answers if the session is still in flight, whoever sent them |
| `FrontEnd2Reactor.FrontEnd2.Tick` | src/sut/register/frontend2.go:122-140 | restarts and resends the overdue entries |
| `FrontEnd2Reactor.AnswersIffTwoResponses` | src/sut/register/frontend2.go:86-120 | each session is answered once, exactly when two responses arrived for it, even from the same register |
| `FrontEnd2Reactor.AnswerIsSoundIff` | src/sut/register/example_test.go:133-135 | when FrontEnd2 answers, both registers have responded exactly when this response has another sender than the one before |
| `EarlyFrontEndOutputs.RunFrontEnd2` | src/sut/register/frontend2.go:86-140 | the state and the outputs of the mutable reactor after any inputs are those of the functional run |
| `EarlyFrontEndOutputs.CallsAreForwarded2` | src/sut/register/frontend2.go:52-63 | FrontEnd2 sends each call to both registers under the number of calls before it |
| `EarlyFrontEndOutputs.SecondResponseIsForwarded` | src/sut/register/frontend2.go:94-110 | it forwards a response exactly when it is the second one of its session, to the client whose call opened the session |
| `EarlyFrontEndOutputs.UnansweredIsResent` | src/sut/register/frontend2.go:122-140 | its tick sends a request again exactly when the session has had fewer than two responses and the request was last sent more than five seconds ago, each once and in order |
| `FrontEnd1Reactor.FrontEnd1.NewSessionId` | src/sut/register/frontend1.go:29-46 | a client with a session is refused and nothing changes; any other gets the next id in both tables |
| `FrontEnd1Reactor.FrontEnd1.RemoveSession` | src/sut/register/frontend1.go:48-57 | removes the session from both tables and returns its client, if it is known |
| `FrontEnd1Reactor.FrontEnd1.ReceiveClient` | src/sut/register/frontend1.go:73-95 | an idle client's call opens a session and goes to both registers |
| `FrontEnd1Reactor.FrontEnd1.ReceiveResponse` | src/sut/register/frontend1.go:99-129 | the first response for a known session is the reply |
| `FrontEnd1Reactor.TablesAreInverse` | src/sut/register/frontend1.go:29-57 | after any inputs the two tables are inverse to each other |
| `FrontEnd1Reactor.AnswersIffOneResponse` | src/sut/register/frontend1.go:99-129 | each session is answered once, exactly when a response arrived for it |
| `FrontEnd1Reactor.AnswersAfterOneResponder` | src/sut/register/example_test.go:112-114 | whenever FrontEnd1 answers, the sender of this response is the only one that has responded |
| `EarlyFrontEndOutputs.RunFrontEnd1` | src/sut/register/frontend1.go:99-129 | the state and the outputs of the mutable reactor after any inputs, until it exits, are those of the functional run |
| `EarlyFrontEndOutputs.FirstResponseIsForwarded` | src/sut/register/frontend1.go:73-129 | until it exits, FrontEnd1 sends an idle client's call to both registers, the first response of each session to the client whose call opened it, and nothing else |
| `EarlyFrontEndOutputs.ExitsIffBusy` | src/sut/register/frontend1.go:75-81 | it exits exactly at a call of a client that has a session without a response |
| `EarlyFrontEndOutputs.TableKeepsCalls` | src/sut/register/frontend1.go:37-43 | its table holds for each busy client an open session of that client and the time of the call |
| `UnsafeFrontEnds.OneRegisterAnswers` | src/sut/register/example_test.go:130-142 | from any state of FrontEnd1 or FrontEnd2 with two registers and a network that loses and reorders, any call that the frontend takes can be answered by one register alone, and the other one stays as it was |
| `UnsafeFrontEnds.AckedWriteIsRead` | src/sut/register/example_test.go:112-118 | in any linearizable history a read returns every write that was acknowledged before it was called |
| `UnsafeFrontEnds.StaleRead` | src/sut/register/example_test.go:112-142 | after any past of either system, for any two clients that it would take and any value that a register lacks: a run in which the other register alone acknowledges the write and this one alone answers the later read, so the reply lacks the write and the history is not linearizable |
| `BroadcastNode.NodeReactor.A` | src/sut/broadcast/broadcast.go:72-81 | the origin starts with the log and both flags set |
| `BroadcastNode.NodeReactor.Other` | src/sut/broadcast/broadcast.go:83-109 | the other nodes start without the log, with flags that depend on the round, and know A only in ClassicDeliv |
| `BroadcastNode.NodeReactor.Receive` | src/sut/broadcast/broadcast.go:111-153 | a Broadcast is logged and, depending on the round, acknowledged or forwarded to all neighbours if new; an Ack clears the sender's flag |
| `BroadcastNode.NodeReactor.Timer` | src/sut/broadcast/broadcast.go:159-195 | sends to exactly the flagged neighbours, once there is a log, clears their flags in the one-shot rounds and renews the timer except in ClassicDeliv |
| `BroadcastProtocol.StartIsDeployment` | src/sut/broadcast/broadcast_test.go:15-20 | on the three nodes of the tests the general initial state is the one that the constructors build |
| `BroadcastProtocol.RunKeeps` | src/sut/broadcast/broadcast.go:111-195 | over any graph and any run: logs are never lost, flags obey the round, and packets are payloads along edges or acknowledgements of them |
| `BroadcastProtocol.NoUnexpectedAck` | src/sut/broadcast/broadcast.go:139-143 | no packet that is under way can make its receiver panic |
| `BroadcastProtocol.AckDelivInformsAll` | src/sut/broadcast/broadcast.go:111-195 | AckDeliv: a cleared flag means that the neighbour has the log; if no node with the log has a flag left, every node reachable from the origin has the log |
| `BroadcastCounts.AtMostOneBroadcastPerEdge` | src/sut/broadcast/broadcast.go:111-195 | SimpleDeliv and ClassicDeliv: in every run each edge carries at most one Broadcast, and carries one exactly when the origin's flag is cleared or, in ClassicDeliv, another sender is informed |
| `BroadcastCounts.InformedHasChain` | src/sut/broadcast/broadcast.go:111-150 | in every round a node with the log is the end of a chain of delivered Broadcasts that starts at the origin and follows edges |
| `BroadcastDelivery.ResendingReachesAll` | src/sut/broadcast/broadcast.go:159-195 | RedunDeliv and AckDeliv: from every reachable state a node can still be informed exactly when it is reachable from the origin |
| `BroadcastDelivery.RetryingReachesNeighbours` | src/sut/broadcast/broadcast.go:83-109 | RetryDeliv: from every reachable state exactly the origin and its neighbours can be informed |
| `BroadcastDelivery.OneShotReachesLive` | src/sut/broadcast/broadcast.go:159-195 | SimpleDeliv and ClassicDeliv: a node can still be informed exactly when it is informed or an edge that can still carry the payload leads to it, in ClassicDeliv along uninformed nodes; so one loss can be final |
| `BroadcastQuiescence.BroadcastIsAcknowledged` | src/sut/broadcast/broadcast.go:116-138 | in AckDeliv delivering a Broadcast from n to m informs m, puts an acknowledgement from m to n on the network and changes no flag |
| `BroadcastQuiescence.AckClearsFlag` | src/sut/broadcast/broadcast.go:139-143 | delivering that acknowledgement clears n's flag for m and no other |
| `BroadcastQuiescence.AckDelivCanStop` | src/sut/broadcast/broadcast.go:30-36 | from every reachable state, whatever has been lost, some continuation informs every node that can be reached from the origin, and after it no flag is left and no Broadcast is ever sent again |
| `BroadcastTimers.TimersStayPending` | src/sut/broadcast/broadcast.go:178-225 | with the pending timers as state: in every round but ClassicDeliv every node always has exactly one |
| `BroadcastTimers.TimersAllowEveryRun` | src/sut/broadcast/broadcast.go:178-225 | so in these rounds the pending timers allow every run in which timers fire at any time |
| `BroadcastTimers.ClassicFiresOnce` | src/sut/broadcast/broadcast.go:203-214 | in ClassicDeliv only the origin's timer is set and it fires once; while a flag of the origin is left it is pending |
| `TextBuilder.Builder.WriteRepeat` | src/debugger/internal/sequence.go:11-38 | the doubling loop terminates and appends exactly `count` copies, also of the empty string |
| `TextBuilder.ExtendByPeriod` | src/debugger/internal/sequence.go:30-37 | why doubling is right: a text with the period of what is written so far continues with any prefix of it |
| `SequenceLayout.WidestBoxFits` | src/debugger/internal/sequence.go:61-70 | the box size is odd, at least 5 if there is a name, and at least 4 more than each name |
| `SequenceLayout.WidestBoxIsNeeded` | src/debugger/internal/sequence.go:61-70 | no box is wider than some name needs, rounded up to an odd size |
| `SequenceLayout.LinkOf` | src/debugger/internal/sequence.go:465-514 | an arrow's column numbers are those of its names, its direction and gap fit them with the special case of a loop at the last node, and the markers widen its message by twice their size |
| `SequenceLayout.NamesAreDistinct` | src/debugger/internal/sequence.go:437-448 | no node has two columns |
| `SequenceLayout.NamesCover` | src/debugger/internal/sequence.go:437-448 | both ends of every arrow have a column |
| `SequenceLayout.NameIsNode` | src/debugger/internal/sequence.go:437-448 | every column belongs to an end of some arrow |
| `SequenceLayout.NamesInOrder` | src/debugger/internal/sequence.go:437-448 | of two columns the left one is that of the node that appears first among the ends of the arrows |
| `SequenceLayout.EveryLayoutFits` | src/debugger/internal/sequence.go:436-528 | for every arrow list, marker size and mark: every name fits its box and every message fits its gap, so no repeat count is negative and no gap index out of range |
| `SequenceLayout.GapsAreTight` | src/debugger/internal/sequence.go:488-525 | a gap that is not empty is exactly as wide as one of its messages needs |
| `SequenceLayout.IndexOfIsFirst` | src/debugger/internal/sequence.go:421-428 | the index of a name is its first position |
| `SequenceDrawing.AppendBoxes` | src/debugger/internal/sequence.go:88-143 | writes the three rows of boxes of the layout, without a last newline |
| `SequenceDrawing.WriteCrash` | src/debugger/internal/sequence.go:163-182 | writes one row of crash boxes, blank for dead nodes and a lifeline otherwise |
| `SequenceDrawing.WriteAnnotation` | src/debugger/internal/sequence.go:232-255 | writes the row of the message |
| `SequenceDrawing.WriteLoopTop` | src/debugger/internal/sequence.go:267-297 | writes the top row of a self-loop, where a dead node shows nothing |
| `SequenceDrawing.WriteLoopBottom` | src/debugger/internal/sequence.go:298-325 | writes the bottom row of a self-loop, where the arrow head hides a dead node |
| `SequenceDrawing.WriteShaft` | src/debugger/internal/sequence.go:326-381 | writes the row of an arrow between two nodes |
| `SequenceDrawing.ShaftGlyph` | src/debugger/internal/sequence.go:351-371 | the nested tests choose the tail, the head, a crossing or a lifeline |
| `SequenceDrawing.AppendArrow` | src/debugger/internal/sequence.go:151-385 | writes an arrow's crash, message and shaft rows and updates the dead nodes |
| `SequenceDrawing.AppendArrows` | src/debugger/internal/sequence.go:145-388 | writes all rows of all arrows and returns the number of rows above the first marked arrow |
| `DiagramDrawing.Index` | src/debugger/internal/sequence.go:421-428 | linear search for a name |
| `DiagramDrawing.CollectNames` | src/debugger/internal/sequence.go:437-448 | the loop collects the names in order of first appearance |
| `DiagramDrawing.MeasureBoxes` | src/debugger/internal/sequence.go:61-70 | the loop computes the box size |
| `DiagramDrawing.IndexCrashes` | src/debugger/internal/sequence.go:449-456 | turns crashed names into column numbers, in whatever order the map is walked |
| `DiagramDrawing.MakeLinks` | src/debugger/internal/sequence.go:458-515 | widens the gaps in place to what the arrows demand and builds the internal arrows |
| `DiagramDrawing.ShrinkGaps` | src/debugger/internal/sequence.go:517-525 | takes the two half boxes off every gap, in place |
| `DiagramDrawing.DrawDiagram` | src/debugger/internal/sequence.go:390-528 | for any arrows and settings the header, the text and the line are those of the layout; the header does not depend on the mark |
| `SequenceAlignment.ColumnFormula` | src/debugger/internal/sequence.go:458-525 | lifeline i is at the sum of the gaps up to i, plus i boxes, plus half a box |
| `SequenceAlignment.DiagramIsAligned` | src/debugger/internal/sequence.go:88-388 | for any arrows over at least two nodes, every box-edge, crash, message, loop and arrow row shows node i at its lifeline's cell |
| `SequenceAlignment.MessageRowEndsAtLastLifelineIff` | src/debugger/internal/sequence.go:232-255 | a message row ends at the last lifeline exactly when there are at least two nodes |
| `SequenceAlignment.ShaftIsOneLine` | src/debugger/internal/sequence.go:326-381 | between lifelines an arrow is one unbroken line, solid or dashed, exactly from its sender's to its receiver's lifeline, and all other cells are blank |
| `SequenceAlignment.MessageBetweenLifelines` | src/debugger/internal/sequence.go:233-241 | a message stands between the two lifelines next to its gap, centred to within one cell |
| `SequenceAlignment.NameInsideBox` | src/debugger/internal/sequence.go:110-120 | a name stands inside the box around its lifeline with at least a border and a blank on each side, centred to within one cell |
| `SequenceAlignment.BoxAroundLifeline` | src/debugger/internal/sequence.go:97-140 | the corners of a box are half a box left and right of its lifeline |
| `SequenceAlignment.CrashAroundLifeline` | src/debugger/internal/sequence.go:163-226 | a crash box stands around the lifeline that it ends; dead nodes are blank and the others keep theirs |
| `SequenceAlignment.LoopTurnsAtBoxEdge` | src/debugger/internal/sequence.go:267-325 | both rows of a loop turn at the same cell, right or left as the arrow goes |
| `SequenceAlignment.LineIsThatOfTheMark` | src/debugger/internal/sequence.go:145-388 | the returned line is the number of rows above the marked arrow's rows, or of all rows if the mark is out of range |
| `SequenceCells.EveryDiagramIsAPicture` | src/debugger/internal/sequence.go:145-388 | every drawn text is a list of rows, each on its own line, above a row of boxes: for each arrow three rows if somebody crashes at its time, one for its message, and one for its shaft or two for its loop |
| `SequenceCells.ArrowAtLifelines` | src/debugger/internal/sequence.go:327-372 | in the row of an arrow each lifeline shows, as a literal character, the tail at the sender, the head pointing away from the sender at the receiver, a crossing strictly between them, and elsewhere nothing if the node is among the crashes at this or an earlier arrow's time and the lifeline otherwise |
| `SequenceCells.ArrowBetweenLifelines` | src/debugger/internal/sequence.go:334-349 | every other cell of that row is part of one line from the sender to the receiver, dashed if the message was dropped, or blank |
| `SequenceCells.MessageRowAtLifelines` | src/debugger/internal/sequence.go:249-253 | in the row of a message each lifeline shows, unless the node has crashed |
| `SequenceCells.MessageRowIs` | src/debugger/internal/sequence.go:491-502 | that row carries the arrow's message between its markers, angle brackets if it is the marked one and blanks otherwise |
| `SequenceCells.MessageCentred` | src/debugger/internal/sequence.go:232-248 | a message stands in the gap on the receiver's side of its sender, or beside its loop, centred to within one cell |
| `SequenceCells.BlankBesideMessage` | src/debugger/internal/sequence.go:232-248 | every other cell of a message's row is blank |
| `SequenceCells.LoopAtLifelines` | src/debugger/internal/sequence.go:269-317 | the rows of a loop show the tail, unless the node has crashed, and below it the head, even if it has; the last node's loop is mirrored |
| `SequenceCells.LoopBesideLifeline` | src/debugger/internal/sequence.go:270-321 | beside its node a loop is a line to a corner at the edge of the node's box, and all other cells are blank |
| `SequenceCells.CrashAtLifelines` | src/debugger/internal/sequence.go:162-225 | the three rows of a crash show a skull in a box on each lifeline that ends at this time, nothing where one ended before, and the others as they were |
| `SequenceCells.BlankInCrashRow` | src/debugger/internal/sequence.go:178-180 | all other cells of these rows are blank |
| `SequenceCells.BoxCells` | src/debugger/internal/sequence.go:92-142 | every cell of the upper and the lower edges of the boxes, at the top and at the end of the diagram |
| `SequenceCells.NameRowCells` | src/debugger/internal/sequence.go:110-120 | every cell beside a name: the edges of its box and blanks |
| `SequenceCells.HeaderIsBoxes` | src/debugger/internal/sequence.go:412 | the header is such a row of boxes, open at the bottom |
| `SequenceEvents.EventsAreArrows` | src/debugger/internal/debugger.go:239-253 | each network event is drawn as an arrow between its own ends at the time of its receipt, with three marker cells on each side of its message |
| `SequenceLines.LineCountsNewlines` | src/debugger/internal/sequence.go:145-388 | if no name or message contains a newline, the marked arrow's rows begin right after as many newlines of the drawn text as the returned line says |
| `SequenceLines.TextHasItsLines` | src/debugger/internal/sequence.go:145-388 | a text of rows has exactly one newline for each row |
| `SequenceDiagramMemo.MarkMovesNothing` | src/debugger/internal/sequence.go:495-502 | whichever arrow is marked, the diagram has the same rows, each of the same width and, messages aside, with the same cells |
| `SequenceDiagramMemo.SequenceDiagrams.constructor` | src/debugger/internal/debugger.go:222-230 | the memo starts empty, without a header |
| `SequenceDiagramMemo.SequenceDiagrams.At` | src/debugger/internal/debugger.go:232-261 | whatever was asked before, the result is what a fresh drawing shows, earlier entries stay, and the header cached from the first call is right for this mark |
| `Framing.ParseIff` | src/logger/lib.go:191-198 | `parse` returns three fields exactly when the entry is their tab-separated join and none contains a tab |
| `Framing.ParseLineIff` | src/logger/lib.go:200-207 | `parseLine` does so exactly when the first two are tab-free, whatever the third contains |
| `Framing.EntryRoundTripIff` | src/logger/cmd/test_client/main.go:18-30 | an entry written by a client is read back as event, meta and data plus newline exactly when its fields contain neither tabs nor newlines |
| `Framing.StreamRoundTrip` | src/logger/lib.go:252-288 | any number of such entries in one stream are read back in order |
| `Framing.IsLogInAnyCase` | src/logger/lib.go:233-237 | the kind of a message is recognised in upper and lower case |
| `LoggerPipeline.Logger.Turn` | src/logger/lib.go:55-71 | one turn of the reactor, or of an enqueue that had to wait, has the effect of the functional step on queue, index and producer, and an index read returns what the step records |
| `LoggerPipeline.Worker.Insert` | src/logger/lib.go:177-183 | all entries of the batch are parsed in order, or the process panics |
| `LoggerPipeline.Worker.DoCommit` | src/logger/lib.go:157-189 | a transaction stores the whole batch or nothing |
| `LoggerPipeline.Worker.Turn` | src/logger/lib.go:103-125 | one turn of the worker's loop has the effect of the functional step on queue, batch and database |
| `LoggerPipeline.RunKeeps` | src/logger/lib.go:55-142 | in every interleaving committed rows, batch and queue are the accepted entries in order, the batch holds at most 512 and the queue at most 1024, and the index counts what was accepted |
| `LoggerPipeline.IndexReadsAreLinearisable` | src/logger/lib.go:59-63 | once as many rows exist as an index read returned, they begin with exactly the entries logged before that read, in order |
| `LoggerPipeline.Drain` | src/logger/lib.go:103-125 | the worker alone can commit everything that is well formed |
| `LoggerPipeline.AllCommittedIffWellFormed` | src/logger/lib.go:177-198 | all accepted entries can still be committed exactly when those in the batch and the queue have three fields |
| `LoggerDelivery.NothingIsDropped` | src/logger/lib.go:127-142 | in every interleaving the entries of the calls that the reactor took are those accepted, followed by the one that is waiting for room |
| `LoggerDelivery.WaitsIffFull` | src/logger/lib.go:127-142 | an entry has to wait exactly when 1024 entries are queued |
| `LoggerDelivery.BatchEndsIff` | src/logger/lib.go:107-123 | the worker ends a batch, with a commit or a panic, exactly when it holds 512 entries or it waited in vain; otherwise it takes the next entry |
| `LoggerDelivery.FullBatches` | src/logger/lib.go:107-109 | in every run in which it never waited in vain, the number of rows is a multiple of 512 |
| `LoggerDelivery.AllHandedCanBeCommittedIff` | src/logger/lib.go:103-142 | from every reachable state steps of the worker and the reactor alone can commit exactly what was handed over, in order, if and only if all of it has three fields |
| `HeapReplay.Heaps` | src/debugger/internal/debugger.go:159-204 | the snapshots are distinct maps, each still holding the replay up to its event when the loop is over |
| `HeapReplay.FirstHeap` | src/debugger/internal/debugger.go:168-172 | the first heap holds each reactor's last initial state and nothing else |
| `HeapReplay.NextHeap` | src/debugger/internal/debugger.go:175-188 | each event patches one reactor's state, empty if it has none yet, with the last diff recorded for the event's time, and nothing changes without such a diff |
| `HeapReplay.SnapshotIsActual` | src/debugger/internal/debugger.go:176-201 | if patch undoes diff and logical times are distinct, the replay of any recording is the reactors' actual state after each event |
| `HeapReplay.ReplayShowsActualStates` | src/debugger/internal/debugger.go:159-204 | the same for the maps that the method returns |
| `HeapReplay.DuplicateTimesMislead` | src/debugger/internal/debugger.go:175-187 | if two events have the same time, then from any start and under any lawful patch the replay can show any state of any reactor too early |
| `HeapReplay.ReplayIsRightIffTimesAreDistinct` | src/debugger/internal/debugger.go:159-204 | under any lawful patch, whatever happens at given times is shown correctly exactly when the times are distinct |
| `LamportClock.LogicalTime.Merge` | src/executor-event-loop/envelope.go:59-67 | one more than the later of the two clocks |
| `LamportClock.EventLoop.Process` | src/executor-event-loop/eventloop.go:105-117 | a message is resumed at the merged time and answered one tick later, and the envelope carries that time |
| `LamportClock.EventLoop.ProcessAdmin` | src/executor-event-loop/eventloop.go:60-89 | a log reset empties the log and restarts the clock, and only the quit command says to quit |
| `LamportClock.EventLoop.Administer` | src/executor-event-loop/eventloop.go:97-104 | a command is a tick before it takes effect, and the loop ends when it is told to quit |
| `LamportClock.LogsIncrease` | src/executor-event-loop/eventloop.go:91-120 | in every run, resets included, each loop's log is strictly increasing in time |
| `LamportClock.LogRecordsConversation` | src/executor-event-loop/eventloop.go:105-117 | in every run each log holds, for each message since the last reset and in turn, its resumption and one tick later the answer sent |
| `LamportClock.LoopsRunUntilToldToQuit` | src/executor-event-loop/eventloop.go:60-104 | a loop runs until it is told to quit, and its clock is two ticks past the later clock after a message, one further after a command and 0 after a reset |
| `LamportClock.ClockConditionIff` | src/executor-event-loop/eventloop.go:91-120 | across any number of loops and any run, resets included, whatever happens before another event has the smaller logical time exactly if no envelope ever reached a loop that had logged a time later than both the envelope's and the loop's own clock |
| `LamportClock.ClockCondition` | src/executor-event-loop/eventloop.go:91-120 | in particular it holds in every run without log resets |
| `LamportClock.ResetBreaksTheCondition` | src/executor-event-loop/eventloop.go:74-79 | a concrete run with a reset and a late envelope in which the condition fails |

## Left out

- Crashes, restarts and `Reset`: they discard a register's state; the test runs with `Crashes: 0`, and durability is claimed for crash-free runs.
- Pending timers: `RegisterProtocol` lets a timer fire at any time; `RegisterTimers` and `RegisterStranding` keep the pending ones and let each fire when it is due or later.
- The period of the broadcasting nodes' timers: a pending timer may fire at any time.
- `log.Fatal` and panics on unknown message types are preconditions; FrontEnd1's exit on a busy client is the run state `Exited`.
- HTTP, JSON, sockets, pipes, SQLite and processes: messages are values, the database is an append-only list, reads and writes do not fail.
- Diff and patch of heaps are parameters with the law that patching undoes diffing; the JSON merge-patch library is not part of this model.
- The scheduler is not part of this model; `LamportClock.ClockConditionIff` takes from it that an envelope is stamped no earlier than the answers on which it is based.
- LDFI, the LTL checker, the journal and the terminal widgets are not part of this model.
- The text of administrative answers.
- Colour and region tags have width 0 and are not written; one byte of a name or message is one cell, so the width of text outside ASCII is not modelled.
- The capacity hint of `drawDiagram` and the overflow branch of `WriteRepeat`; integers are unbounded.
- `SequenceDrawing.AppendArrows`: counts an arrow's rows in one addition where the code counts them one by one; the sum is the same, because whether the mark was found is settled before an arrow's first row.
- `SequenceDrawing.WriteCrash`: the three inline copies of the crash-row loop are one method with the shape as a parameter, as are the two of the box-border loop.
- `GetNetworkTrace`, `GetInitHeap` and `GetCrashes` read a database; their results are inputs.
- `LoggerPipeline.Worker.Turn`: takes one entry, one commit or nothing at a time with the timeout as an input; how the two goroutines are scheduled is the choice of steps in `LoggerPipeline.RunKeeps`.
- The order in which Go walks a map is arbitrary; the loops over maps are proved for every order.
