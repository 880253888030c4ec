// The HTTP session of webserver/HttpSession.h: a bounded queue of responses
// between one chain of reads and one chain of writes.
//
// Completions of asynchronous operations are events of the environment. An
// operation that was started and has not completed is outstanding.
module HttpPipeline {
  import opened Seqs

  // Maximum number of responses the queue holds.
  const LIMIT: nat := 8

  // A response to request number id; close says that the connection ends with it.
  datatype Response = Response(id: nat, status: int, close: bool)

  // What processRequest makes of a request.
  datatype Outcome = Served | Rejected(status: int) | Threw

  datatype Event =
    | ReadRequest(id: nat, outcome: Outcome, keepAlive: bool)
    | ReadEof
    | ReadError
    | ReadUpgrade
    | WriteDone(write: Write, failed: bool)

  // An asynchronous write. One that starts after the sending side was shut down
  // can only fail.
  datatype Write = Write(response: Response, doomed: bool)

  // items is the queue; the pending reads and writes are outstanding;
  // sendClosed says that the sending side of the socket was shut down or that
  // the socket was handed over. The rest is history: the requests answered, the
  // writes started, the responses delivered, the reads started, and which of
  // the two chains has ended.
  datatype Session = Session(
    items: seq<Response>,
    pendingReads: nat,
    pendingWrites: multiset<Write>,
    sendClosed: bool,
    handled: seq<Response>,
    started: seq<Response>,
    sent: seq<Response>,
    readsStarted: nat,
    inputOver: bool,
    outputOver: bool)

  function ResponseTo(id: nat, outcome: Outcome, keepAlive: bool): Response {
    match outcome
    case Served => Response(id, 200, !keepAlive)
    case Rejected(status) => Response(id, status, !keepAlive)
    case Threw => Response(id, 500, !keepAlive)
  }

  // ---------------------------------------------------------------------
  // The handlers as functions
  // ---------------------------------------------------------------------

  ghost function StartRead(s: Session): Session {
    s.(pendingReads := s.pendingReads + 1, readsStarted := s.readsStarted + 1)
  }

  ghost function StartWrite(s: Session): Session
    requires s.items != []
  {
    s.(pendingWrites := s.pendingWrites + multiset{Write(s.items[0], s.sendClosed)},
       started := s.started + [s.items[0]])
  }

  ghost function Send(s: Session, response: Response): Session {
    var t := s.(items := s.items + [response], handled := s.handled + [response]);
    if |t.items| == 1 then StartWrite(t) else t
  }

  ghost predicate Enabled(s: Session, e: Event) {
    match e
    case WriteDone(write, failed) => write in s.pendingWrites && (write.doomed ==> failed)
    case _ => s.pendingReads > 0
  }

  // The end of the stream shuts down the sending side, an upgrade hands the
  // socket to the WebSocket session, an error does neither.
  ghost function OnRead(s: Session, e: Event): Session
    requires !e.WriteDone? && Enabled(s, e)
  {
    var t := s.(pendingReads := s.pendingReads - 1);
    if e.ReadRequest? then
      var u := Send(t, ResponseTo(e.id, e.outcome, e.keepAlive));
      if |u.items| >= LIMIT then u else StartRead(u)
    else t.(inputOver := true, sendClosed := s.sendClosed || !e.ReadError?)
  }

  // The delivered response leaves the queue; the next write starts, and a read
  // if the queue was full before.
  ghost function Continue(s: Session): Session
    requires s.items != []
  {
    var u := s.(items := s.items[1..]);
    var v := if u.items == [] then u else StartWrite(u);
    if |s.items| >= LIMIT then StartRead(v) else v
  }

  ghost function OnWrite(s: Session, write: Write, failed: bool): Session
    requires Enabled(s, WriteDone(write, failed)) && s.items != []
  {
    var t := s.(pendingWrites := s.pendingWrites - multiset{write},
                sent := if failed then s.sent else s.sent + [write.response]);
    if write.response.close then t.(outputOver := true, sendClosed := true)
    else if failed then t.(outputOver := true)
    else Continue(t)
  }

  // The queue asserts that it is not empty when a write has completed.
  ghost predicate Defined(s: Session, e: Event) {
    e.WriteDone? ==> s.items != []
  }

  ghost function Next(s: Session, e: Event): Session
    requires Enabled(s, e) && Defined(s, e)
  {
    match e
    case WriteDone(write, failed) => OnWrite(s, write, failed)
    case _ => OnRead(s, e)
  }

  // ---------------------------------------------------------------------
  // The invariant
  // ---------------------------------------------------------------------

  // Back-pressure: while the input lives, a read is outstanding exactly when
  // the queue has room, and never two.
  ghost predicate InputSound(s: Session) {
    && |s.items| <= LIMIT
    && s.pendingReads == (if !s.inputOver && |s.items| < LIMIT then 1 else 0)
    && (s.inputOver ==> |s.items| < LIMIT)
  }

  // While the output lives, the front of the queue and nothing else is being
  // written. Once it ended, nothing is.
  ghost predicate OutputSound(s: Session) {
    if s.outputOver then s.items != [] && s.pendingWrites == multiset{}
    else if s.items == [] then s.pendingWrites == multiset{}
    else Writing(s, false) || (s.sendClosed && Writing(s, true))
  }

  ghost predicate Writing(s: Session, doomed: bool)
    requires s.items != []
  {
    s.pendingWrites == multiset{Write(s.items[0], doomed)}
  }

  // Each handled request has one response, delivered or queued, in order. A
  // delivered response that closes the connection is not taken off the queue.
  ghost predicate OrderSound(s: Session) {
    || s.sent + s.items == s.handled
    || (s.outputOver && s.items != [] && s.items[0].close
        && s.sent + s.items[1..] == s.handled && s.sent != [] && s.sent[|s.sent| - 1] == s.items[0])
  }

  // Writes start in the order of the responses, one at a time.
  ghost predicate StartsSound(s: Session) {
    && |s.started| <= |s.handled|
    && s.started == s.handled[..|s.started|]
    && (s.outputOver ==> |s.sent| <= |s.started| <= |s.sent| + 1)
    && (!s.outputOver ==> |s.started| == |s.sent| + |s.pendingWrites|)
  }

  ghost predicate Inv(s: Session) {
    InputSound(s) && OutputSound(s) && OrderSound(s) && StartsSound(s)
    && (!s.outputOver ==> s.sent + s.items == s.handled)
    && (s.sendClosed ==> s.inputOver || s.outputOver)
  }

  lemma NextKeepsInv(s: Session, e: Event)
    requires Inv(s) && Enabled(s, e)
    ensures Defined(s, e) && Inv(Next(s, e))
  {
    if e.WriteDone? {
      assert !s.outputOver && s.items != [] && e.write.response == s.items[0];
      WriteKeepsInv(s, e.write, e.failed);
    } else {
      ReadKeepsInv(s, e);
    }
  }

  lemma ReadKeepsInv(s: Session, e: Event)
    requires Inv(s) && Enabled(s, e) && !e.WriteDone?
    ensures Inv(OnRead(s, e))
  {
    hide OrderSound, StartsSound, InputSound, OutputSound, ResponseTo;
    ReadKeepsCoupling(s, e);
    if e.ReadRequest? {
      SendKeepsOrder(s, ResponseTo(e.id, e.outcome, e.keepAlive), OnRead(s, e));
    } else {
      EndKeepsOrder(s, OnRead(s, e));
    }
  }

  lemma ReadKeepsCoupling(s: Session, e: Event)
    requires InputSound(s) && OutputSound(s) && Enabled(s, e) && !e.WriteDone?
    requires s.sendClosed ==> s.inputOver || s.outputOver
    ensures InputSound(OnRead(s, e)) && OutputSound(OnRead(s, e))
  {
    hide ResponseTo;
    if e.ReadRequest? {
      hide Send, OutputSound;
      var t := s.(pendingReads := s.pendingReads - 1);
      SendKeepsOutput(s, t, ResponseTo(e.id, e.outcome, e.keepAlive), OnRead(s, e));
    }
  }

  lemma SendKeepsOutput(s: Session, t: Session, r: Response, u: Session)
    requires OutputSound(s) && (s.sendClosed ==> s.outputOver)
    requires t == s.(pendingReads := t.pendingReads)
    requires u == Send(t, r).(pendingReads := u.pendingReads, readsStarted := u.readsStarted)
    ensures OutputSound(u)
    ensures Send(t, r).items == s.items + [r] && Send(t, r).pendingReads == t.pendingReads
    ensures Send(t, r).inputOver == s.inputOver
  {
  }

  lemma EndKeepsOrder(s: Session, t: Session)
    requires OrderSound(s) && StartsSound(s)
    requires t == s.(pendingReads := t.pendingReads, inputOver := t.inputOver, sendClosed := t.sendClosed)
    ensures OrderSound(t) && StartsSound(t)
  {
  }

  lemma SendKeepsOrder(s: Session, r: Response, t: Session)
    requires Inv(s)
    requires t == Send(s, r).(pendingReads := t.pendingReads, readsStarted := t.readsStarted)
    ensures OrderSound(t) && StartsSound(t) && (!t.outputOver ==> t.sent + t.items == t.handled)
  {
    hide InputSound;
    Associative(s.sent, s.items, [r]);
    if s.items != [] {
      assert (s.items + [r])[1..] == s.items[1..] + [r];
      Associative(s.sent, s.items[1..], [r]);
      assert t.started == s.started && s.handled + [r] == t.handled;
    } else {
      assert s.started == s.sent == s.handled;
    }
  }

  lemma WriteKeepsInv(s: Session, write: Write, failed: bool)
    requires Inv(s) && !s.outputOver && s.items != [] && write.response == s.items[0]
    requires Enabled(s, WriteDone(write, failed))
    ensures Inv(OnWrite(s, write, failed))
  {
    hide OrderSound, StartsSound;
    assert s.pendingWrites == multiset{write};
    assert multiset{write} - multiset{write} == multiset{};
    WriteKeepsOrder(s, write, failed);
    WriteKeepsStarts(s, write, failed);
  }

  lemma WriteKeepsOrder(s: Session, write: Write, failed: bool)
    requires s.items != [] && write.response == s.items[0] && Enabled(s, WriteDone(write, failed))
    requires !s.outputOver && s.sent + s.items == s.handled
    ensures var t := OnWrite(s, write, failed);
      OrderSound(t) && (!t.outputOver ==> t.sent + t.items == t.handled)
  {
    assert (s.sent + [write.response]) + s.items[1..] == s.sent + s.items;
  }

  lemma WriteKeepsStarts(s: Session, write: Write, failed: bool)
    requires s.items != [] && write.response == s.items[0] && s.pendingWrites == multiset{write}
    requires Enabled(s, WriteDone(write, failed))
    requires !s.outputOver && s.sent + s.items == s.handled && StartsSound(s)
    ensures StartsSound(OnWrite(s, write, failed))
  {
    var n := |s.sent|;
    assert s.handled[n] == s.items[0];
    if |s.items| > 1 {
      assert s.handled[n + 1] == s.items[1];
      assert s.handled[..n + 2] == s.handled[..n + 1] + [s.items[1]];
    }
    if !write.response.close && !failed {
      assert OnWrite(s, write, failed).items == s.items[1..];
    }
  }

  // Every chain of events from a state. A new session has one read outstanding.
  ghost function Init(): Session {
    Session([], 1, multiset{}, false, [], [], [], 1, false, false)
  }

  ghost predicate ValidFrom(s: Session, events: seq<Event>)
    decreases |events|
  {
    events != [] ==>
      Enabled(s, events[0]) && Defined(s, events[0]) && ValidFrom(Next(s, events[0]), events[1..])
  }

  ghost function RunFrom(s: Session, events: seq<Event>): Session
    requires ValidFrom(s, events)
    decreases |events|
  {
    if events == [] then s else RunFrom(Next(s, events[0]), events[1..])
  }

  lemma {:induction false} RunKeepsInv(s: Session, events: seq<Event>)
    requires Inv(s) && ValidFrom(s, events)
    ensures Inv(RunFrom(s, events))
    decreases |events|
  {
    if events != [] {
      NextKeepsInv(s, events[0]);
      RunKeepsInv(Next(s, events[0]), events[1..]);
    }
  }

  ghost predicate Reachable(s: Session) {
    exists events :: ValidFrom(Init(), events) && s == RunFrom(Init(), events)
  }

  lemma ReachableInv(s: Session)
    requires Reachable(s)
    ensures Inv(s)
  {
    var events :| ValidFrom(Init(), events) && s == RunFrom(Init(), events);
    RunKeepsInv(Init(), events);
  }

  lemma AssertionHoldsIn(s: Session, write: Write, failed: bool)
    requires Inv(s) && Enabled(s, WriteDone(write, failed))
    ensures s.items != []
  {
  }

  // The assertion of the queue never fails, whatever completes next.
  lemma AssertionHolds(s: Session, e: Event)
    requires Reachable(s) && Enabled(s, e)
    ensures Defined(s, e)
  {
    ReachableInv(s);
    NextKeepsInv(s, e);
  }

  // ---------------------------------------------------------------------
  // Back-pressure
  // ---------------------------------------------------------------------

  // In every reachable state with both chains alive: at most 8 items, a
  // read outstanding exactly below the limit, a write exactly when there is
  // something to write, hence always something outstanding.
  lemma BackPressure(s: Session)
    requires Reachable(s) && !s.inputOver && !s.outputOver
    ensures |s.items| <= 8
    ensures s.pendingReads == if |s.items| < 8 then 1 else 0
    ensures |s.pendingWrites| == if s.items == [] then 0 else 1
    ensures s.pendingReads + |s.pendingWrites| >= 1
  {
    ReachableInv(s);
  }

  // A session rests with nothing outstanding only when it is finished: its
  // input ended and everything was delivered, or its output ended and its
  // input ended or is held back by a full queue.
  lemma RestsOnlyWhenFinished(s: Session)
    requires Reachable(s)
    ensures s.pendingReads == 0 && |s.pendingWrites| == 0
       <==> || (!s.outputOver && s.inputOver && s.items == [])
            || (s.outputOver && (s.inputOver || |s.items| == 8))
    ensures s.pendingReads == 0 && |s.pendingWrites| == 0 && !s.outputOver ==> s.sent == s.handled
  {
    ReachableInv(s);
    if s.items == [] && !s.outputOver {
      assert s.sent + s.items == s.sent;
    }
  }

  // ---------------------------------------------------------------------
  // Halting
  // ---------------------------------------------------------------------

  // t continues s with nothing written or delivered; only the queue grew.
  ghost predicate OnlyQueued(s: Session, t: Session) {
    && t.outputOver && t.started == s.started && t.sent == s.sent
    && s.items <= t.items && s.handled <= t.handled
    && |t.handled| - |s.handled| == |t.items| - |s.items|
  }

  lemma HaltedStep(s: Session, e: Event)
    requires Inv(s) && s.outputOver && Enabled(s, e) && Defined(s, e)
    ensures OnlyQueued(s, Next(s, e))
  {
  }

  lemma {:induction false} HaltedRun(s: Session, events: seq<Event>)
    requires Inv(s) && s.outputOver && ValidFrom(s, events)
    ensures OnlyQueued(s, RunFrom(s, events))
    decreases |events|
  {
    if events != [] {
      HaltedStep(s, events[0]);
      NextKeepsInv(s, events[0]);
      var t := Next(s, events[0]);
      hide Next, Inv;
      HaltedRun(t, events[1..]);
    }
  }

  // After a closing or failed write no write ever starts again, nothing more
  // is delivered, and the queue only fills up to the limit: at most 7 more
  // requests are answered.
  lemma OutputHalts(s: Session, events: seq<Event>)
    requires Inv(s) && s.outputOver && ValidFrom(s, events)
    ensures OnlyQueued(s, RunFrom(s, events))
    ensures |RunFrom(s, events).handled| <= |s.handled| + 8 - |s.items| <= |s.handled| + 7
  {
    HaltedRun(s, events);
    RunKeepsInv(s, events);
    hide RunFrom;
  }

  // After the end of the stream, a read error or an upgrade no read ever
  // starts again and no further request is answered.
  lemma {:induction false} InputHalts(s: Session, events: seq<Event>)
    requires Inv(s) && s.inputOver && ValidFrom(s, events)
    ensures var t := RunFrom(s, events);
      t.inputOver && t.pendingReads == 0 && t.readsStarted == s.readsStarted && t.handled == s.handled
    decreases |events|
  {
    if events != [] {
      InputHaltsStep(s, events[0]);
      var t := Next(s, events[0]);
      hide Next, Inv;
      InputHalts(t, events[1..]);
    }
  }

  lemma InputHaltsStep(s: Session, e: Event)
    requires Inv(s) && s.inputOver && Enabled(s, e) && Defined(s, e)
    ensures var t := Next(s, e);
      Inv(t) && t.inputOver && t.pendingReads == 0 && t.readsStarted == s.readsStarted && t.handled == s.handled
  {
    NextKeepsInv(s, e);
    WriteReadsNothing(s, e.write, e.failed);
    hide Inv;
  }

  // A write that leaves a queue with room starts no read.
  lemma WriteReadsNothing(s: Session, write: Write, failed: bool)
    requires Enabled(s, WriteDone(write, failed)) && 0 < |s.items| < LIMIT
    ensures var t := OnWrite(s, write, failed);
      && t.inputOver == s.inputOver && t.pendingReads == s.pendingReads
      && t.readsStarted == s.readsStarted && t.handled == s.handled
  {
  }

  ghost predicate GoodWrite(e: Event) {
    e.WriteDone? && !e.failed && !e.write.response.close
  }

  // After a read error, k good writes deliver the next k queued responses.
  lemma {:induction false} Drains(s: Session, events: seq<Event>)
    requires Inv(s) && s.inputOver && !s.sendClosed && !s.outputOver && ValidFrom(s, events)
    requires forall i | 0 <= i < |events| :: GoodWrite(events[i])
    ensures |events| <= |s.items|
    ensures var t := RunFrom(s, events);
      && t.items == s.items[|events|..]
      && t.sent == s.sent + s.items[..|events|]
      && t.inputOver && !t.sendClosed && !t.outputOver
    decreases |events|
  {
    if events == [] {
      assert s.sent + s.items[..0] == s.sent;
    } else {
      GoodWriteDelivers(s, events[0]);
      var t := Next(s, events[0]);
      hide Next, Inv;
      Drains(t, events[1..]);
      MoveFront(s.sent, s.items, |events|);
    }
  }

  lemma MoveFront(sent: seq<Response>, items: seq<Response>, k: nat)
    requires 0 < k <= |items|
    ensures (sent + [items[0]]) + items[1..][..k - 1] == sent + items[..k]
    ensures items[1..][k - 1..] == items[k..]
  {
  }

  // The queue is empty after exactly as many good writes as it held. Then every
  // response has been delivered and nothing is outstanding.
  lemma DrainedIff(s: Session, events: seq<Event>)
    requires Inv(s) && s.inputOver && !s.sendClosed && !s.outputOver && ValidFrom(s, events)
    requires forall i | 0 <= i < |events| :: GoodWrite(events[i])
    ensures var t := RunFrom(s, events);
      && (t.items == [] <==> |events| == |s.items|)
      && (t.items == [] <==> t.pendingReads + |t.pendingWrites| == 0)
      && (t.items == [] ==> t.sent == t.handled)
  {
    Drains(s, events);
    RunKeepsInv(s, events);
    var t := RunFrom(s, events);
    assert t.sent + t.items == t.handled;
    assert t.items == [] ==> t.sent + t.items == t.sent;
  }

  lemma GoodWriteDelivers(s: Session, e: Event)
    requires Inv(s) && s.inputOver && !s.outputOver && Enabled(s, e) && GoodWrite(e)
    ensures s.items != [] && Inv(Next(s, e))
    ensures var t := Next(s, e);
      && t.items == s.items[1..]
      && t.sent == s.sent + [s.items[0]]
      && t.inputOver && t.sendClosed == s.sendClosed && !t.outputOver
  {
    NextKeepsInv(s, e);
  }

  // The write in flight was started before the sending side was closed.
  ghost predicate InFlight(s: Session) {
    s.items != [] && Writing(s, false)
  }

  // After the end of the stream or an upgrade, nothing but the response in
  // flight is still delivered.
  lemma {:induction false} ClosedDelivers(s: Session, events: seq<Event>)
    requires Inv(s) && s.inputOver && s.sendClosed && ValidFrom(s, events)
    ensures var t := RunFrom(s, events);
      t.sent == s.sent || (InFlight(s) && t.sent == s.sent + [s.items[0]])
    decreases |events|
  {
    if events != [] {
      ClosedStep(s, events[0]);
      var t := Next(s, events[0]);
      hide Next, Inv;
      ClosedDelivers(t, events[1..]);
    }
  }

  lemma ClosedStep(s: Session, e: Event)
    requires Inv(s) && s.inputOver && s.sendClosed && Enabled(s, e) && Defined(s, e)
    ensures Inv(Next(s, e)) && Next(s, e).inputOver && Next(s, e).sendClosed && !InFlight(Next(s, e))
    ensures Next(s, e).sent == s.sent || (InFlight(s) && Next(s, e).sent == s.sent + [s.items[0]])
  {
    NextKeepsInv(s, e);
  }

  lemma LastGoodWrite(s: Session) returns (events: seq<Event>)
    requires Inv(s) && !s.outputOver && |s.items| == 1 && InFlight(s)
    ensures ValidFrom(s, events) && RunFrom(s, events).sent == s.handled
  {
    var e := WriteDone(Write(s.items[0], false), false);
    events := [e];
    assert s.items == [s.items[0]];
    assert Next(s, e).sent == s.handled;
    assert ValidFrom(Next(s, e), []) && RunFrom(Next(s, e), []) == Next(s, e);
    assert events[1..] == [];
  }

  // After these events the client has every response the session owes.
  ghost predicate DeliversAll(s: Session, events: seq<Event>) {
    ValidFrom(s, events) && RunFrom(s, events).sent == s.handled
  }

  // So every queued response can still reach the client exactly when there is
  // none, or one and its write is in flight: with two, one is always lost.
  lemma ClosedLosesNothingIff(s: Session)
    requires Inv(s) && s.inputOver && s.sendClosed && !s.outputOver
    ensures (exists events :: DeliversAll(s, events))
       <==> s.items == [] || (|s.items| == 1 && InFlight(s))
  {
    if s.items == [] {
      assert s.sent + [] == s.sent;
      assert DeliversAll(s, []);
    } else if |s.items| == 1 && InFlight(s) {
      var events := LastGoodWrite(s);
      assert DeliversAll(s, events);
    } else {
      forall events | ValidFrom(s, events) ensures !DeliversAll(s, events) {
        ClosedDelivers(s, events);
        assert |s.handled| == |s.sent| + |s.items|;
      }
    }
  }

  // A client that pipelines two requests and then closes its sending side, or
  // asks for an upgrade, never gets the second response.
  lemma HalfCloseLosesAResponse(e: Event, e': Event, end: Event)
    requires e.ReadRequest? && e'.ReadRequest? && (end.ReadEof? || end.ReadUpgrade?)
    ensures var events := [e, e', end];
      && ValidFrom(Init(), events)
      && RunFrom(Init(), events).handled == Answer(e) + Answer(e')
      && !exists later :: DeliversAll(RunFrom(Init(), events), later)
  {
    var s := AfterTwoRequests(e, e', end);
    assert s.sendClosed;
    hide *;
    ClosedLosesNothingIff(s);
  }

  // The state after two pipelined requests and the end of the input.
  lemma AfterTwoRequests(e: Event, e': Event, end: Event) returns (s: Session)
    requires e.ReadRequest? && e'.ReadRequest? && !end.ReadRequest? && !end.WriteDone?
    ensures ValidFrom(Init(), [e, e', end]) && RunFrom(Init(), [e, e', end]) == s
    ensures Inv(s) && |s.items| == 2 && s.items == s.handled == Answer(e) + Answer(e')
    ensures s.inputOver && !s.outputOver && (s.sendClosed <==> !end.ReadError?)
  {
    var s1, s2 := Next(Init(), e), Next(Next(Init(), e), e');
    s := Next(s2, end);
    NextKeepsInv(Init(), e);
    NextKeepsInv(s1, e');
    NextKeepsInv(s2, end);
    hide ResponseTo;
    assert s1.handled == Answer(e) == s1.items;
    assert s2.handled == Answer(e) + Answer(e') == s2.items;
    hide Next, Inv;
    ThreeEvents(Init(), e, e', end);
  }

  lemma ThreeEvents(s: Session, e1: Event, e2: Event, e3: Event)
    requires Enabled(s, e1) && Defined(s, e1)
    requires Enabled(Next(s, e1), e2) && Defined(Next(s, e1), e2)
    requires Enabled(Next(Next(s, e1), e2), e3) && Defined(Next(Next(s, e1), e2), e3)
    ensures ValidFrom(s, [e1, e2, e3])
    ensures RunFrom(s, [e1, e2, e3]) == Next(Next(Next(s, e1), e2), e3)
  {
    hide Next, Enabled, Defined;
    var events := [e1, e2, e3];
    assert events[1..] == [e2, e3] && [e2, e3][1..] == [e3] && [e3][1..] == [];
    var s1, s2 := Next(s, e1), Next(Next(s, e1), e2);
    var s3 := Next(s2, e3);
    assert ValidFrom(s3, []) && RunFrom(s3, []) == s3;
    assert ValidFrom(s2, [e3]) && RunFrom(s2, [e3]) == s3;
    assert ValidFrom(s1, [e2, e3]) && RunFrom(s1, [e2, e3]) == s3;
  }

  // A read error leaves the sending side open: every queued response can still
  // reach the client exactly when none but the last closes the connection.
  lemma ReadErrorLosesNothingIff(s: Session)
    requires Reachable(s) && Enabled(s, ReadError) && !s.outputOver
    ensures (exists later :: DeliversAll(Next(s, ReadError), later))
       <==> forall i | 0 <= i < |s.items| - 1 :: !s.items[i].close
  {
    ReachableInv(s);
    NextKeepsInv(s, ReadError);
    var t := Next(s, ReadError);
    assert t.items == s.items && t.inputOver && !t.sendClosed && !t.outputOver;
    if forall i | 0 <= i < |s.items| - 1 :: !s.items[i].close {
      var later := DeliverRest(t);
      assert DeliversAll(t, later);
    } else {
      var i :| 0 <= i < |s.items| - 1 && s.items[i].close;
      forall later | ValidFrom(t, later) ensures !DeliversAll(t, later) {
        ClosingBlocks(t, later, i);
        assert |t.handled| == |t.sent| + |t.items|;
      }
    }
  }

  lemma DeliverRest(s: Session) returns (events: seq<Event>)
    requires Inv(s) && s.inputOver && !s.sendClosed && !s.outputOver
    requires forall i | 0 <= i < |s.items| - 1 :: !s.items[i].close
    ensures DeliversAll(s, events)
    decreases |s.items|
  {
    if s.items == [] {
      assert s.sent + [] == s.sent;
      events := [];
    } else if |s.items| == 1 {
      events := LastGoodWrite(s);
    } else {
      var e := WriteDone(Write(s.items[0], false), false);
      assert !s.items[0].close;
      GoodWriteDelivers(s, e);
      var t := Next(s, e);
      assert t.handled == s.handled;
      var rest := DeliverRest(t);
      events := [e] + rest;
      assert events[1..] == rest;
    }
  }

  // Nothing behind a closing response is ever delivered.
  lemma {:induction false} ClosingBlocks(s: Session, events: seq<Event>, i: nat)
    requires Inv(s) && !s.outputOver && i < |s.items| && s.items[i].close && ValidFrom(s, events)
    ensures |RunFrom(s, events).sent| <= |s.sent| + i + 1
    decreases |events|
  {
    if events != [] {
      var t := Next(s, events[0]);
      NextKeepsInv(s, events[0]);
      ClosingBlocksStep(s, events[0], i);
      hide Next, Inv;
      if t.outputOver {
        HaltedRun(t, events[1..]);
      } else {
        ClosingBlocks(t, events[1..], if events[0].WriteDone? then i - 1 else i);
      }
    }
  }

  lemma ClosingBlocksStep(s: Session, e: Event, i: nat)
    requires Inv(s) && !s.outputOver && i < |s.items| && s.items[i].close && Enabled(s, e) && Defined(s, e)
    ensures var t := Next(s, e);
      if t.outputOver then |t.sent| <= |s.sent| + 1
      else if e.WriteDone? then i > 0 && i - 1 < |t.items| && t.items[i - 1].close && |t.sent| == |s.sent| + 1
      else i < |t.items| && t.items[i].close && t.sent == s.sent
  {
    hide ResponseTo, Continue, Send;
    if e.WriteDone? {
      assert e.write.response == s.items[0];
      ContinuePops(s.(pendingWrites := s.pendingWrites - multiset{e.write}, sent := s.sent + [s.items[0]]));
    } else if e.ReadRequest? {
      SendAppends(s.(pendingReads := s.pendingReads - 1), ResponseTo(e.id, e.outcome, e.keepAlive));
      SendEndsNothing(s.(pendingReads := s.pendingReads - 1), ResponseTo(e.id, e.outcome, e.keepAlive));
    }
    hide Inv;
  }

  lemma ContinuePops(s: Session)
    requires s.items != []
    ensures Continue(s).items == s.items[1..] && Continue(s).sent == s.sent && Continue(s).outputOver == s.outputOver
  {
  }

  lemma SendEndsNothing(s: Session, r: Response)
    ensures Send(s, r).outputOver == s.outputOver
  {
  }

  // So after two pipelined keep-alive requests a malformed third one costs the
  // client neither response.
  lemma MalformedRequestLosesNothing(e: Event, e': Event)
    requires e.ReadRequest? && e'.ReadRequest? && e.keepAlive && e'.keepAlive
    ensures ValidFrom(Init(), [e, e', ReadError])
    ensures exists later :: DeliversAll(RunFrom(Init(), [e, e', ReadError]), later)
  {
    var s := AfterTwoRequests(e, e', ReadError);
    assert !s.items[0].close;
    hide *;
    var later := DeliverRest(s);
    assert DeliversAll(s, later);
  }

  // A delivered response that closes the connection is never taken off the
  // queue: from then on it stays at the front, whatever happens.
  lemma ClosingResponseStays(s: Session, write: Write, events: seq<Event>)
    requires Reachable(s) && Enabled(s, WriteDone(write, false)) && write.response.close
    ensures Defined(s, WriteDone(write, false))
    ensures var t := Next(s, WriteDone(write, false));
      ValidFrom(t, events) ==>
        && RunFrom(t, events).sent == s.sent + [write.response]
        && RunFrom(t, events).items != [] && RunFrom(t, events).items[0] == write.response
  {
    ReachableInv(s);
    NextKeepsInv(s, WriteDone(write, false));
    var t := Next(s, WriteDone(write, false));
    if ValidFrom(t, events) {
      OutputHalts(t, events);
    }
  }

  // ---------------------------------------------------------------------
  // Order (section 9.3.2 of RFC 9112)
  // ---------------------------------------------------------------------

  // Over any run the responses delivered are, in order, those to the first
  // requests handled; while the output lives the queue holds the rest. A
  // response is on the wire before the next one starts.
  lemma ResponsesInOrder(s: Session)
    requires Reachable(s)
    ensures s.sent <= s.handled
    ensures !s.outputOver ==> s.sent + s.items == s.handled
    ensures s.started <= s.handled && |s.sent| <= |s.started| <= |s.sent| + 1
  {
    ReachableInv(s);
  }

  // The responses are those the requests were given, one each.
  ghost function Answers(events: seq<Event>): seq<Response> {
    if events == [] then [] else Answer(events[0]) + Answers(events[1..])
  }

  ghost function Answer(e: Event): seq<Response> {
    if e.ReadRequest? then [ResponseTo(e.id, e.outcome, e.keepAlive)] else []
  }

  // Each request is answered under its own number, with the status of its
  // outcome, and the connection closes after the answer exactly if the request
  // does not ask to keep it.
  lemma AnswerOfRequest(s: Session, id: nat, outcome: Outcome, keepAlive: bool)
    requires Enabled(s, ReadRequest(id, outcome, keepAlive))
    ensures var status := if outcome == Served then 200 else if outcome == Threw then 500 else outcome.status;
            var t := Next(s, ReadRequest(id, outcome, keepAlive));
      && t.items == s.items + [Response(id, status, !keepAlive)]
      && t.handled == s.handled + [Response(id, status, !keepAlive)]
      && t.sent == s.sent && t.sendClosed == s.sendClosed
  {
    hide Send;
    SendAppends(s.(pendingReads := s.pendingReads - 1), ResponseTo(id, outcome, keepAlive));
  }

  lemma SendAppends(s: Session, r: Response)
    ensures var t := Send(s, r);
      t.items == s.items + [r] && t.handled == s.handled + [r] && t.sent == s.sent && t.sendClosed == s.sendClosed
  {
  }

  // A write of a closing response shuts down the sending side even if it
  // failed; no other write does.
  lemma OnlyClosingWritesShutDown(s: Session, write: Write, failed: bool)
    requires Inv(s) && Enabled(s, WriteDone(write, failed))
    ensures Defined(s, WriteDone(write, failed))
    ensures var t := Next(s, WriteDone(write, failed));
      && t.sendClosed == (s.sendClosed || write.response.close)
      && t.outputOver == (write.response.close || failed)
      && t.sent == s.sent + (if failed then [] else [s.items[0]])
  {
    NextKeepsInv(s, WriteDone(write, failed));
    assert !s.outputOver && write.response == s.items[0];
    hide Inv, Continue;
    ContinueShutsNothing(s.(pendingWrites := s.pendingWrites - multiset{write}, sent := s.sent + [write.response]));
  }

  lemma ContinueShutsNothing(s: Session)
    requires s.items != []
    ensures var t := Continue(s);
      t.sendClosed == s.sendClosed && t.outputOver == s.outputOver && t.sent == s.sent
  {
  }

  lemma AnswersOne(s: Session, e: Event)
    requires Enabled(s, e) && Defined(s, e)
    ensures Next(s, e).handled == s.handled + Answer(e)
  {
    hide ResponseTo, Continue;
    if e.WriteDone? {
      ContinueAnswersNothing(s);
      ContinueAnswersNothing(s.(pendingWrites := s.pendingWrites - multiset{e.write},
                                sent := s.sent + [e.write.response]));
    }
  }

  lemma ContinueAnswersNothing(s: Session)
    requires s.items != []
    ensures Continue(s).handled == s.handled
  {
  }

  lemma {:induction false} OneResponsePerRequest(s: Session, events: seq<Event>)
    requires Inv(s) && ValidFrom(s, events)
    ensures RunFrom(s, events).handled == s.handled + Answers(events)
    decreases |events|
  {
    if events == [] {
      assert s.handled + [] == s.handled;
    } else {
      var t := FirstStep(s, events);
      hide RunFrom, ValidFrom, Inv, Answer;
      OneResponsePerRequest(t, events[1..]);
      Associative(s.handled, Answer(events[0]), Answers(events[1..]));
    }
  }

  lemma FirstStep(s: Session, events: seq<Event>) returns (t: Session)
    requires Inv(s) && events != [] && ValidFrom(s, events)
    ensures Inv(t) && ValidFrom(t, events[1..])
    ensures t.handled == s.handled + Answer(events[0])
    ensures RunFrom(s, events) == RunFrom(t, events[1..])
  {
    NextKeepsInv(s, events[0]);
    AnswersOne(s, events[0]);
    t := Next(s, events[0]);
  }

  // ---------------------------------------------------------------------
  // The session object
  // ---------------------------------------------------------------------

  class HttpSession {
    var items: seq<Response>
    ghost var pendingReads: nat
    ghost var pendingWrites: multiset<Write>
    ghost var sendClosed: bool
    ghost var handled: seq<Response>
    ghost var started: seq<Response>
    ghost var sent: seq<Response>
    ghost var readsStarted: nat
    ghost var inputOver: bool
    ghost var outputOver: bool

    ghost function View(): Session
      reads this
    {
      Session(items, pendingReads, pendingWrites, sendClosed, handled, started, sent, readsStarted,
              inputOver, outputOver)
    }

    // The session with its first read started.
    constructor ()
      ensures View() == Init() && Inv(View())
    {
      items, pendingReads, pendingWrites, handled, started, sent := [], 0, multiset{}, [], [], [];
      readsStarted, sendClosed, inputOver, outputOver := 0, false, false, false;
      new;
      DoRead();
    }

    predicate IsFull()
      reads this
    {
      |items| >= LIMIT
    }

    method DoRead()
      modifies this
      ensures View() == StartRead(old(View()))
    {
      pendingReads := pendingReads + 1;
      readsStarted := readsStarted + 1;
    }

    method WriteFront()
      requires items != []
      modifies this
      ensures View() == StartWrite(old(View()))
    {
      pendingWrites := pendingWrites + multiset{Write(items[0], sendClosed)};
      started := started + [items[0]];
    }

    method QueueSend(response: Response)
      modifies this
      ensures View() == Send(old(View()), response)
    {
      items := items + [response];
      handled := handled + [response];
      if |items| == 1 {
        WriteFront();
      }
    }

    // Every path sends exactly one response.
    method HandleRequest(id: nat, outcome: Outcome, keepAlive: bool)
      modifies this
      ensures View() == Send(old(View()), ResponseTo(id, outcome, keepAlive))
    {
      match outcome
      case Rejected(status) => QueueSend(Response(id, status, !keepAlive));
      case Threw => QueueSend(Response(id, 500, !keepAlive));
      case Served => QueueSend(Response(id, 200, !keepAlive));
    }

    method OnReadEvent(e: Event)
      requires !e.WriteDone? && Enabled(View(), e)
      modifies this
      ensures View() == OnRead(old(View()), e)
    {
      hide Send, ResponseTo;
      pendingReads := pendingReads - 1;
      if e.ReadEof? {
        inputOver := true;
        DoClose();
        return;
      }
      if e.ReadError? {
        inputOver := true;
        return;
      }
      if e.ReadUpgrade? {
        inputOver, sendClosed := true, true;
        return;
      }
      OnRequest(e.id, e.outcome, e.keepAlive);
    }

    // If the queue is not full now, the next request is read ahead.
    method OnRequest(id: nat, outcome: Outcome, keepAlive: bool)
      modifies this
      ensures var u := Send(old(View()), ResponseTo(id, outcome, keepAlive));
        View() == if |u.items| >= LIMIT then u else StartRead(u)
    {
      HandleRequest(id, outcome, keepAlive);
      if !IsFull() {
        DoRead();
      }
    }

    // Takes the delivered response off the queue and starts the next write.
    method QueueOnWrite() returns (wasFull: bool)
      requires items != []
      modifies this
      ensures wasFull == (|old(items)| >= 8)
      ensures var u := old(View()).(items := old(items)[1..]);
        View() == if u.items == [] then u else StartWrite(u)
    {
      wasFull := IsFull();
      items := items[1..];
      if items != [] {
        WriteFront();
      }
    }

    method OnWriteEvent(write: Write, failed: bool)
      requires Enabled(View(), WriteDone(write, failed)) && Inv(View())
      modifies this
      ensures old(items) != [] && View() == OnWrite(old(View()), write, failed)
    {
      hide Continue, Inv, InputSound, OutputSound, OrderSound, StartsSound;
      AssertionHoldsIn(View(), write, failed);
      pendingWrites := pendingWrites - multiset{write};
      sent := if failed then sent else sent + [write.response];
      if write.response.close {
        outputOver := true;
        DoClose();
        return;
      }
      if failed {
        outputOver := true;
        return;
      }
      AfterWrite();
    }

    // Informs the queue that a write completed.
    method AfterWrite()
      requires items != []
      modifies this
      ensures View() == Continue(old(View()))
    {
      hide StartWrite;
      var wasFull := QueueOnWrite();
      if wasFull {
        DoRead();
      }
    }

    // Shuts down the sending side of the socket.
    method DoClose()
      modifies this
      ensures View() == old(View()).(sendClosed := true)
    {
      sendClosed := true;
    }
  }
}
