// The send queue of webserver/WebsocketSession.cpp.
//
// on_send and on_write hold the queue mutex only while they change the queue;
// the write itself starts after the mutex has been released and reads the
// front of the queue unprotected. Here each lock-protected segment and each
// unprotected start of a write is one atomic step, and the steps of any number
// of threads interleave freely.
module WebsocketQueue {
  import opened Seqs

  type Message = nat

  // The queue, the writes in flight, and the history: messages accepted into
  // the queue, taken off it, handed to async_write, and completely written.
  datatype Queue = Queue(
    queue: seq<Message>,
    inFlight: multiset<Message>,
    accepted: seq<Message>,
    popped: seq<Message>,
    written: seq<Message>,
    completed: seq<Message>,
    failed: bool)

  // Where a thread is: on_send before its lock, after an unlock that obliges
  // it to start a write, or on_write before its lock.
  datatype Place = Sending(message: Message) | Owing | Popping

  datatype State = State(q: Queue, threads: map<nat, Place>)

  datatype Step =
    | Post(thread: nat, message: Message)
    | Push(thread: nat)
    | Write(thread: nat)
    | Complete(thread: nat, message: Message, ok: bool)
    | Pop(thread: nat)

  // ---------------------------------------------------------------------
  // The segments as functions
  // ---------------------------------------------------------------------

  ghost function Pushed(q: Queue, message: Message): Queue {
    q.(queue := q.queue + [message], accepted := q.accepted + [message])
  }

  ghost function Started(q: Queue): Queue
    requires q.queue != []
  {
    q.(inFlight := q.inFlight + multiset{q.queue[0]}, written := q.written + [q.queue[0]])
  }

  ghost function Finished(q: Queue, message: Message, ok: bool): Queue {
    q.(inFlight := q.inFlight - multiset{message},
       completed := if ok then q.completed + [message] else q.completed,
       failed := q.failed || !ok)
  }

  ghost function Popped(q: Queue): Queue
    requires q.queue != []
  {
    q.(queue := q.queue[1..], popped := q.popped + [q.queue[0]])
  }

  ghost predicate Enabled(s: State, step: Step) {
    match step
    case Post(t, _) => t !in s.threads
    case Push(t) => t in s.threads && s.threads[t].Sending?
    case Write(t) => t in s.threads && s.threads[t].Owing?
    case Complete(t, m, _) => t !in s.threads && m in s.q.inFlight
    case Pop(t) => t in s.threads && s.threads[t].Popping?
  }

  // front() and pop() are undefined on an empty queue.
  ghost predicate Defined(s: State, step: Step) {
    step.Write? || step.Pop? ==> s.q.queue != []
  }

  ghost function Next(s: State, step: Step): State
    requires Enabled(s, step) && Defined(s, step)
  {
    match step
    case Post(t, m) => s.(threads := s.threads[t := Sending(m)])
    case Push(t) =>
      var q := Pushed(s.q, s.threads[t].message);
      State(q, if |q.queue| > 1 then s.threads - {t} else s.threads[t := Owing])
    case Write(t) => State(Started(s.q), s.threads - {t})
    case Complete(t, m, ok) =>
      State(Finished(s.q, m, ok), if ok then s.threads[t := Popping] else s.threads)
    case Pop(t) =>
      var q := Popped(s.q);
      State(q, if q.queue == [] then s.threads - {t} else s.threads[t := Owing])
  }

  // ---------------------------------------------------------------------
  // The invariant
  // ---------------------------------------------------------------------

  // A thread that has unlocked but not written, or completed but not popped.
  ghost predicate Busy(s: State, t: nat) {
    t in s.threads && !s.threads[t].Sending?
  }

  ghost predicate SomeBusy(s: State) {
    exists t :: Busy(s, t)
  }

  ghost predicate SomePopping(s: State) {
    exists t :: Busy(s, t) && s.threads[t].Popping?
  }

  // At most one write is owed, in flight or being taken off the queue.
  ghost predicate OneWriter(s: State) {
    && (forall t, u | Busy(s, t) && Busy(s, u) :: t == u)
    && (SomeBusy(s) ==> s.q.inFlight == multiset{})
    && (s.q.inFlight != multiset{} ==> s.q.queue != [] && s.q.inFlight == multiset{s.q.queue[0]})
    && (s.q.failed ==> s.q.queue != [] && s.q.inFlight == multiset{} && !SomeBusy(s))
  }

  // There is one exactly when there is something to write, unless a write failed.
  ghost predicate Live(s: State) {
    s.q.queue != [] <==> SomeBusy(s) || s.q.inFlight != multiset{} || s.q.failed
  }

  // Messages leave the queue in the order in which they were accepted, each
  // written once.
  ghost predicate Fifo(s: State) {
    && s.q.accepted == s.q.popped + s.q.queue
    && (SomePopping(s) ==> s.q.queue != [])
    && s.q.completed == (if SomePopping(s) then s.q.popped + [s.q.queue[0]] else s.q.popped)
    && s.q.written == (if s.q.queue != [] && (s.q.inFlight != multiset{} || SomePopping(s) || s.q.failed)
                       then s.q.popped + [s.q.queue[0]] else s.q.popped)
  }

  ghost predicate Inv(s: State) {
    OneWriter(s) && Live(s) && Fifo(s)
  }

  ghost function Init(): State {
    State(Queue([], multiset{}, [], [], [], [], false), map[])
  }

  lemma InitInv()
    ensures Inv(Init())
  {
  }

  // The unprotected front() and the pop() never meet an empty queue.
  lemma StepsAreDefined(s: State, step: Step)
    requires Inv(s) && Enabled(s, step)
    ensures Defined(s, step)
  {
    if step.Write? || step.Pop? {
      assert Busy(s, step.thread);
    }
  }

  lemma NextKeepsInv(s: State, step: Step)
    requires Inv(s) && Enabled(s, step)
    ensures Defined(s, step) && Inv(Next(s, step))
  {
    StepsAreDefined(s, step);
    match step
    case Post(_, _) => PostKeepsInv(s, step);
    case Push(_) => PushKeepsInv(s, step);
    case Write(_) => WriteKeepsInv(s, step);
    case Complete(_, _, _) => CompleteKeepsInv(s, step);
    case Pop(_) => PopKeepsInv(s, step);
  }

  lemma PostKeepsInv(s: State, step: Step)
    requires Inv(s) && Enabled(s, step) && step.Post?
    ensures Inv(Next(s, step))
  {
    var s' := Next(s, step);
    assert forall t :: Busy(s', t) <==> Busy(s, t);
    assert SomeBusy(s') == SomeBusy(s);
    assert SomePopping(s') == SomePopping(s);
  }

  lemma PushKeepsInv(s: State, step: Step)
    requires Inv(s) && Enabled(s, step) && step.Push?
    ensures Inv(Next(s, step))
  {
    var s' := Next(s, step);
    assert s.q.popped + s.q.queue + [s.threads[step.thread].message] == s.q.popped + s'.q.queue;
    if s.q.queue == [] {
      forall t ensures Busy(s', t) <==> t == step.thread {
        assert Busy(s, t) ==> SomeBusy(s);
      }
      assert Busy(s', step.thread);
    } else {
      assert forall t :: Busy(s', t) <==> Busy(s, t);
      assert SomeBusy(s') == SomeBusy(s);
      assert SomePopping(s') == SomePopping(s);
    }
  }

  lemma WriteKeepsInv(s: State, step: Step)
    requires Inv(s) && Enabled(s, step) && Defined(s, step) && step.Write?
    ensures Inv(Next(s, step))
  {
    var s' := Next(s, step);
    assert Busy(s, step.thread);
    forall t ensures !Busy(s', t) {
      assert Busy(s, t) ==> t == step.thread;
    }
  }

  lemma CompleteKeepsInv(s: State, step: Step)
    requires Inv(s) && Enabled(s, step) && step.Complete?
    ensures Inv(Next(s, step))
  {
    var s' := Next(s, step);
    assert !SomeBusy(s);
    assert step.message == s.q.queue[0];
    assert s'.q.inFlight == multiset{};
    forall t ensures Busy(s', t) <==> step.ok && t == step.thread {
      assert Busy(s, t) ==> SomeBusy(s);
    }
    assert step.ok <==> Busy(s', step.thread);
  }

  lemma PopKeepsInv(s: State, step: Step)
    requires Inv(s) && Enabled(s, step) && Defined(s, step) && step.Pop?
    ensures Inv(Next(s, step))
  {
    var s' := Next(s, step);
    assert Busy(s, step.thread) && SomePopping(s);
    assert s.q.queue == [s.q.queue[0]] + s.q.queue[1..];
    assert s.q.popped + [s.q.queue[0]] + s.q.queue[1..] == s.q.popped + s.q.queue;
    forall t ensures Busy(s', t) <==> s'.q.queue != [] && t == step.thread {
      assert Busy(s, t) ==> t == step.thread;
    }
    assert s'.q.queue != [] <==> Busy(s', step.thread);
  }

  ghost predicate ValidFrom(s: State, steps: seq<Step>)
    decreases |steps|
  {
    steps != [] ==>
      Enabled(s, steps[0]) && Defined(s, steps[0]) && ValidFrom(Next(s, steps[0]), steps[1..])
  }

  ghost function RunFrom(s: State, steps: seq<Step>): State
    requires ValidFrom(s, steps)
    decreases |steps|
  {
    if steps == [] then s else RunFrom(Next(s, steps[0]), steps[1..])
  }

  lemma {:induction false} RunKeepsInv(s: State, steps: seq<Step>)
    requires Inv(s) && ValidFrom(s, steps)
    ensures Inv(RunFrom(s, steps))
    decreases |steps|
  {
    if steps != [] {
      NextKeepsInv(s, steps[0]);
      RunKeepsInv(Next(s, steps[0]), steps[1..]);
    }
  }

  ghost predicate Reachable(s: State) {
    exists steps :: ValidFrom(Init(), steps) && s == RunFrom(Init(), steps)
  }

  lemma ReachableInv(s: State)
    requires Reachable(s)
    ensures Inv(s)
  {
    var steps :| ValidFrom(Init(), steps) && s == RunFrom(Init(), steps);
    InitInv();
    RunKeepsInv(Init(), steps);
  }

  // Whatever thread moves next, it never meets an empty queue unprotected.
  lemma NeverUndefined(s: State, step: Step)
    requires Reachable(s) && Enabled(s, step)
    ensures Defined(s, step)
  {
    ReachableInv(s);
    StepsAreDefined(s, step);
  }

  // ---------------------------------------------------------------------
  // Interleaving safety
  // ---------------------------------------------------------------------

  // In every reachable state of every interleaving: one writer at most, and
  // one exactly when the queue is not empty (until a write fails).
  lemma OneWriterAtATime(s: State)
    requires Reachable(s)
    ensures |s.q.inFlight| <= 1
    ensures forall t, u | Busy(s, t) && Busy(s, u) :: t == u
    ensures SomeBusy(s) ==> |s.q.inFlight| == 0
    ensures !s.q.failed ==> (s.q.queue != [] <==> SomeBusy(s) || |s.q.inFlight| == 1)
    ensures s.q.failed ==> !SomeBusy(s) && |s.q.inFlight| == 0
  {
    ReachableInv(s);
  }

  // ---------------------------------------------------------------------
  // What the histories record
  // ---------------------------------------------------------------------

  // The messages of the pushes that were executed, in order.
  ghost function Pushes(s: State, steps: seq<Step>): seq<Message>
    requires ValidFrom(s, steps)
    decreases |steps|
  {
    if steps == [] then [] else
      (if steps[0].Push? then [s.threads[steps[0].thread].message] else [])
      + Pushes(Next(s, steps[0]), steps[1..])
  }

  // The messages whose write succeeded, in order.
  ghost function Successes(steps: seq<Step>): seq<Message> {
    if steps == [] then [] else
      (if steps[0].Complete? && steps[0].ok then [steps[0].message] else []) + Successes(steps[1..])
  }

  // Over any run every push is accepted into the queue, and what completed are
  // the successful writes.
  lemma {:induction false} HistoriesAreTrue(s: State, steps: seq<Step>)
    requires ValidFrom(s, steps)
    ensures RunFrom(s, steps).q.accepted == s.q.accepted + Pushes(s, steps)
    ensures RunFrom(s, steps).q.completed == s.q.completed + Successes(steps)
    ensures RunFrom(s, steps).q.failed <==> s.q.failed || exists i :: 0 <= i < |steps| && IsFailure(steps[i])
    decreases |steps|
  {
    if steps == [] {
      assert s.q.accepted + [] == s.q.accepted && s.q.completed + [] == s.q.completed;
    } else {
      var t, rest := Next(s, steps[0]), steps[1..];
      HistoryStep(s, steps[0]);
      HistoriesAreTrue(t, rest);
      var pushed := if steps[0].Push? then [s.threads[steps[0].thread].message] else [];
      var succeeded := if steps[0].Complete? && steps[0].ok then [steps[0].message] else [];
      Associative(s.q.accepted, pushed, Pushes(t, rest));
      Associative(s.q.completed, succeeded, Successes(rest));
      assert forall i | 0 <= i < |rest| :: rest[i] == steps[i + 1];
      if exists i :: 0 <= i < |steps| && IsFailure(steps[i]) {
        var i :| 0 <= i < |steps| && IsFailure(steps[i]);
        assert i > 0 ==> IsFailure(rest[i - 1]);
      }
    }
  }

  ghost predicate IsFailure(step: Step) {
    step.Complete? && !step.ok
  }

  lemma HistoryStep(s: State, step: Step)
    requires Enabled(s, step) && Defined(s, step)
    ensures var t := Next(s, step);
      && t.q.accepted == s.q.accepted + (if step.Push? then [s.threads[step.thread].message] else [])
      && t.q.completed == s.q.completed + (if step.Complete? && step.ok then [step.message] else [])
      && (t.q.failed <==> s.q.failed || IsFailure(step))
  {
  }

  lemma {:induction false} WaitingIsPushed(s: State, thread: nat, message: Message, steps: seq<Step>)
    requires ValidFrom(s, steps) && thread in s.threads && s.threads[thread] == Sending(message)
    requires forall i | 0 <= i < |steps| :: steps[i] != Push(thread)
    ensures var t := RunFrom(s, steps);
      && Enabled(t, Push(thread))
      && Next(t, Push(thread)).q.queue == t.q.queue + [message]
      && Next(t, Push(thread)).q.accepted == t.q.accepted + [message]
    decreases |steps|
  {
    if steps != [] {
      WaitsForLock(s, thread, steps[0]);
      assert forall i | 0 <= i < |steps[1..]| :: steps[1..][i] == steps[i + 1];
      WaitingIsPushed(Next(s, steps[0]), thread, message, steps[1..]);
    }
  }

  lemma WaitsForLock(s: State, thread: nat, step: Step)
    requires Enabled(s, step) && Defined(s, step)
    requires thread in s.threads && s.threads[thread].Sending? && step != Push(thread)
    ensures var t := Next(s, step);
      thread in t.threads && t.threads[thread] == s.threads[thread]
  {
  }

  // A posted message waits for the lock, whatever other threads do, and is then
  // put at the end of the queue.
  lemma PostedIsPushed(s: State, thread: nat, message: Message, steps: seq<Step>)
    requires Enabled(s, Post(thread, message)) && ValidFrom(Next(s, Post(thread, message)), steps)
    requires forall i | 0 <= i < |steps| :: steps[i] != Push(thread)
    ensures var t := RunFrom(Next(s, Post(thread, message)), steps);
      && Enabled(t, Push(thread))
      && Next(t, Push(thread)).q.queue == t.q.queue + [message]
      && Next(t, Push(thread)).q.accepted == t.q.accepted + [message]
  {
    WaitingIsPushed(Next(s, Post(thread, message)), thread, message, steps);
  }

  // A write that is owed or in flight keeps its front: until its completion
  // nothing is taken off the queue, so the message read without the lock is
  // the one that was at the front when the lock was released.
  lemma {:induction false} FrontIsHeld(s: State, steps: seq<Step>)
    requires Inv(s) && ValidFrom(s, steps)
    requires !SomePopping(s) && s.q.queue != []
    requires forall i | 0 <= i < |steps| :: !steps[i].Complete?
    ensures var t := RunFrom(s, steps);
      && s.q.queue <= t.q.queue
      && t.q.popped == s.q.popped
      && !SomePopping(t)
      && (t.q.written == s.q.written || t.q.written == s.q.written + [s.q.queue[0]])
    decreases |steps|
  {
    if steps != [] {
      var next := Next(s, steps[0]);
      NextKeepsInv(s, steps[0]);
      NoPopBeforeCompletion(s, steps[0]);
      assert !steps[0].Complete?;
      hide Next, Inv;
      FrontIsHeld(next, steps[1..]);
      WrittenAtMostFront(s);
      RunKeepsInv(s, steps);
      WrittenAtMostFront(RunFrom(s, steps));
    }
  }

  lemma WrittenAtMostFront(s: State)
    requires Inv(s) && s.q.queue != []
    ensures s.q.written == s.q.popped || s.q.written == s.q.popped + [s.q.queue[0]]
  {
  }

  lemma NoPopBeforeCompletion(s: State, step: Step)
    requires Inv(s) && Enabled(s, step) && Defined(s, step) && !step.Complete?
    requires !SomePopping(s) && s.q.queue != []
    ensures var t := Next(s, step);
      && s.q.queue <= t.q.queue && t.q.popped == s.q.popped && !SomePopping(t)
      && |s.q.written| <= |t.q.written|
  {
    var t := Next(s, step);
    if step.Pop? {
      assert Busy(s, step.thread);
      assert false;
    }
    assert forall u | Busy(t, u) && t.threads[u].Popping? :: Busy(s, u) && s.threads[u].Popping?;
  }

  // ---------------------------------------------------------------------
  // Delivery
  // ---------------------------------------------------------------------

  // What a client has received is a prefix of what its queue accepted.
  lemma CompletedIsPrefix(s: State)
    requires Reachable(s)
    ensures s.q.completed <= s.q.accepted
    ensures s.q.written <= s.q.accepted
    ensures |s.q.completed| <= |s.q.written| <= |s.q.completed| + 1
    ensures s.q.queue == [] ==> s.q.completed == s.q.accepted
  {
    ReachableInv(s);
    if s.q.queue != [] {
      assert s.q.popped + s.q.queue == (s.q.popped + [s.q.queue[0]]) + s.q.queue[1..];
    } else {
      assert s.q.popped + s.q.queue == s.q.popped;
    }
  }

  // After a failed write the session never writes again; its queue only grows.
  lemma {:induction false} FailureHalts(s: State, steps: seq<Step>)
    requires Inv(s) && s.q.failed && ValidFrom(s, steps)
    ensures var t := RunFrom(s, steps);
      t.q.failed && t.q.written == s.q.written && t.q.completed == s.q.completed && s.q.queue <= t.q.queue
    decreases |steps|
  {
    if steps != [] {
      NextKeepsInv(s, steps[0]);
      FailedStep(s, steps[0]);
      var next := Next(s, steps[0]);
      hide Next, Inv;
      FailureHalts(next, steps[1..]);
    }
  }

  lemma FailedStep(s: State, step: Step)
    requires Inv(s) && s.q.failed && Enabled(s, step) && Defined(s, step)
    ensures var t := Next(s, step);
      t.q.failed && t.q.written == s.q.written && t.q.completed == s.q.completed && s.q.queue <= t.q.queue
  {
    if step.Write? || step.Pop? {
      assert Busy(s, step.thread);
      assert false;
    }
  }

  // ---------------------------------------------------------------------
  // The session object
  // ---------------------------------------------------------------------

  class WebsocketSession {
    var queue: seq<Message>
    ghost var inFlight: multiset<Message>
    ghost var accepted: seq<Message>
    ghost var popped: seq<Message>
    ghost var written: seq<Message>
    ghost var completed: seq<Message>
    ghost var failed: bool

    ghost function View(): Queue
      reads this
    {
      Queue(queue, inFlight, accepted, popped, written, completed, failed)
    }

    constructor ()
      ensures View() == Init().q
    {
      queue, inFlight, failed := [], multiset{}, false;
      accepted, popped, written, completed := [], [], [], [];
    }

    // on_send under the lock: true if the caller must start a write.
    method OnSend(message: Message) returns (owing: bool)
      modifies this
      ensures View() == Pushed(old(View()), message)
      ensures owing <==> old(queue) == []
    {
      queue := queue + [message];
      accepted := accepted + [message];
      if |queue| > 1 {
        return false;
      }
      return true;
    }

    // Starts the write of the front; the lock is not held.
    method AsyncWriteFront()
      requires queue != []
      modifies this
      ensures View() == Started(old(View()))
    {
      inFlight := inFlight + multiset{queue[0]};
      written := written + [queue[0]];
    }

    // The completion handler up to its lock: true if it goes on to pop.
    method OnWrite(message: Message, ok: bool) returns (popping: bool)
      requires message in inFlight
      modifies this
      ensures View() == Finished(old(View()), message, ok)
      ensures popping == ok
    {
      inFlight := inFlight - multiset{message};
      if !ok {
        failed := true;
        return false;
      }
      completed := completed + [message];
      return true;
    }

    // on_write under the lock: true if the caller must start the next write.
    method PopFront() returns (owing: bool)
      requires queue != []
      modifies this
      ensures View() == Popped(old(View()))
      ensures owing <==> queue != []
    {
      popped := popped + [queue[0]];
      queue := queue[1..];
      owing := queue != [];
    }
  }
}
