// The broadcast bus of webserver/WebsocketDataBus.cpp and the lifetime of the
// sessions it knows. Each locked segment of the bus is one atomic step; so is
// each turn of the broadcast loop, which promotes one weak reference and posts
// to it while it holds the strong one.
module DataBus {
  import opened Sets

  type Id = nat

  // A session lives while somebody holds a reference to it. Then its destructor
  // runs, which unregisters it, and finally its memory is released.
  datatype Life = Alive | Destroying | Unregistered | Freed

  // A broadcast in progress: the clients of its snapshot, how many turns of the
  // loop are done, and the sessions it has posted to.
  datatype Broadcast = Broadcast(clients: seq<Id>, at: nat, posted: seq<Id>)

  datatype State = State(sessions: set<Id>, life: map<Id, Life>, broadcasts: map<nat, Broadcast>)

  datatype Step =
    | Create(id: Id)
    | Register(id: Id)
    | Release(id: Id)
    | Unregister(id: Id)
    | Free(id: Id)
    | Snapshot(b: nat, clients: seq<Id>)
    | Turn(b: nat)

  ghost predicate Is(s: State, id: Id, life: Life) {
    id in s.life && s.life[id] == life
  }

  ghost predicate Distinct(ids: seq<Id>) {
    forall i, j | 0 <= i < j < |ids| :: ids[i] != ids[j]
  }

  // The snapshot visits the registered sessions in any order, each once.
  ghost predicate Visits(clients: seq<Id>, sessions: set<Id>) {
    Distinct(clients) && forall id :: id in clients <==> id in sessions
  }

  // on_accept registers a session it holds; only the destructor unregisters.
  ghost predicate Enabled(s: State, step: Step) {
    match step
    case Create(id) => id !in s.life
    case Register(id) => Is(s, id, Alive)
    case Release(id) => Is(s, id, Alive)
    case Unregister(id) => Is(s, id, Destroying)
    case Free(id) => Is(s, id, Unregistered)
    case Snapshot(b, clients) => b !in s.broadcasts && Visits(clients, s.sessions)
    case Turn(b) => b in s.broadcasts && s.broadcasts[b].at < |s.broadcasts[b].clients|
  }

  // The loop body: post if the weak reference can still be promoted.
  ghost function TurnOf(s: State, b: Broadcast): Broadcast
    requires b.at < |b.clients|
  {
    var id := b.clients[b.at];
    b.(at := b.at + 1, posted := if Is(s, id, Alive) then b.posted + [id] else b.posted)
  }

  ghost function Next(s: State, step: Step): State
    requires Enabled(s, step)
  {
    match step
    case Create(id) => s.(life := s.life[id := Alive])
    case Register(id) => s.(sessions := s.sessions + {id})
    case Release(id) => s.(life := s.life[id := Destroying])
    case Unregister(id) => s.(sessions := s.sessions - {id}, life := s.life[id := Unregistered])
    case Free(id) => s.(life := s.life[id := Freed])
    case Snapshot(b, clients) => s.(broadcasts := s.broadcasts[b := Broadcast(clients, 0, [])])
    case Turn(b) => s.(broadcasts := s.broadcasts[b := TurnOf(s, s.broadcasts[b])])
  }

  ghost predicate ValidFrom(s: State, steps: seq<Step>)
    decreases |steps|
  {
    steps != [] ==> Enabled(s, steps[0]) && ValidFrom(Next(s, steps[0]), steps[1..])
  }

  ghost function RunFrom(s: State, steps: seq<Step>): State
    requires ValidFrom(s, steps)
    decreases |steps|
  {
    if steps == [] then s else RunFrom(Next(s, steps[0]), steps[1..])
  }

  ghost function Init(): State {
    State({}, map[], map[])
  }

  // ---------------------------------------------------------------------
  // Lifetime
  // ---------------------------------------------------------------------

  // Every pointer the bus holds is to a session whose destructor has not
  // finished unregistering.
  ghost predicate PointersSound(s: State) {
    forall id | id in s.sessions :: Is(s, id, Alive) || Is(s, id, Destroying)
  }

  lemma {:induction false} PointersStaySound(s: State, steps: seq<Step>)
    requires PointersSound(s) && ValidFrom(s, steps)
    ensures PointersSound(RunFrom(s, steps))
    decreases |steps|
  {
    if steps != [] {
      PointersStaySound(Next(s, steps[0]), steps[1..]);
    }
  }

  // So a snapshot never touches the memory of a session that is gone.
  lemma SnapshotIsSafe(steps: seq<Step>, b: nat, clients: seq<Id>)
    requires ValidFrom(Init(), steps)
    requires Enabled(RunFrom(Init(), steps), Snapshot(b, clients))
    ensures forall id | id in clients ::
      var s := RunFrom(Init(), steps);
      id in s.life && s.life[id] != Unregistered && s.life[id] != Freed
  {
    PointersStaySound(Init(), steps);
  }

  // After step i, and after all later ones, the session is registered.
  ghost predicate RegisteredSince(steps: seq<Step>, id: Id, i: int) {
    && 0 <= i < |steps| && steps[i] == Register(id)
    && forall j | i < j < |steps| :: steps[j] != Unregister(id)
  }

  // The bus knows exactly the sessions that registered and have not unregistered
  // since.
  lemma {:induction false} SessionsAreRegistered(s: State, steps: seq<Step>, id: Id)
    requires ValidFrom(s, steps)
    ensures id in RunFrom(s, steps).sessions
       <==> || (exists i :: RegisteredSince(steps, id, i))
            || (id in s.sessions && Unregister(id) !in steps)
    decreases |steps|
  {
    if steps != [] {
      var t := Next(s, steps[0]);
      assert id in t.sessions <==> steps[0] == Register(id) || (id in s.sessions && steps[0] != Unregister(id));
      SessionsAreRegistered(t, steps[1..], id);
      hide Next, Enabled, RegisteredSince;
      RegisteredStep(steps, id);
    }
  }

  lemma RegisteredStep(steps: seq<Step>, id: Id)
    requires steps != []
    ensures (exists i :: RegisteredSince(steps, id, i))
       <==> || (exists i :: RegisteredSince(steps[1..], id, i))
            || (steps[0] == Register(id) && Unregister(id) !in steps[1..])
    ensures Unregister(id) in steps <==> steps[0] == Unregister(id) || Unregister(id) in steps[1..]
  {
    var rest := steps[1..];
    assert steps == [steps[0]] + rest;
    assert forall i | 0 <= i < |rest| :: rest[i] == steps[i + 1];
    if exists i :: RegisteredSince(rest, id, i) {
      var i :| RegisteredSince(rest, id, i);
      assert forall j | i + 1 < j < |steps| :: steps[j] == rest[j - 1];
      assert RegisteredSince(steps, id, i + 1);
    }
    if exists i :: RegisteredSince(steps, id, i) {
      var i :| RegisteredSince(steps, id, i);
      if i > 0 {
        assert RegisteredSince(rest, id, i - 1);
      } else {
        assert Unregister(id) !in rest;
      }
    }
    if steps[0] == Register(id) && Unregister(id) !in rest {
      assert RegisteredSince(steps, id, 0);
    }
  }

  // So a snapshot visits exactly these, each once.
  lemma SnapshotVisitsRegistered(steps: seq<Step>, b: nat, clients: seq<Id>, id: Id)
    requires ValidFrom(Init(), steps) && Enabled(RunFrom(Init(), steps), Snapshot(b, clients))
    ensures multiset(clients)[id] == if exists i :: RegisteredSince(steps, id, i) then 1 else 0
    ensures Next(RunFrom(Init(), steps), Snapshot(b, clients)).broadcasts[b] == Broadcast(clients, 0, [])
  {
    SessionsAreRegistered(Init(), steps, id);
    CountInDistinct(clients, id);
  }

  // A session is alive from its creation until its last reference is released.
  lemma {:induction false} AliveUntilReleased(s: State, steps: seq<Step>, id: Id)
    requires ValidFrom(s, steps)
    ensures Is(RunFrom(s, steps), id, Alive)
       <==> (Is(s, id, Alive) || (id !in s.life && Create(id) in steps)) && Release(id) !in steps
    decreases |steps|
  {
    if steps != [] {
      var rest := steps[1..];
      AliveUntilReleased(Next(s, steps[0]), rest, id);
      assert steps == [steps[0]] + rest;
    }
  }

  // ---------------------------------------------------------------------
  // Delivery
  // ---------------------------------------------------------------------

  // What holds of a broadcast at any time: it has posted at most once to each
  // client it has visited, to no one else, and to all of these still alive.
  ghost predicate Delivering(s: State, b: Broadcast) {
    && b.at <= |b.clients|
    && Distinct(b.clients)
    && (forall id | id in b.clients :: id in s.life)
    && Distinct(b.posted)
    && (forall id | id in b.posted :: id in b.clients[..b.at])
    && (forall id | id in b.clients[..b.at] && Is(s, id, Alive) :: id in b.posted)
  }

  lemma TurnDelivers(s: State, b: Broadcast)
    requires Delivering(s, b) && b.at < |b.clients|
    ensures Delivering(s, TurnOf(s, b))
  {
    var id, c := b.clients[b.at], TurnOf(s, b);
    assert b.clients[..b.at + 1] == b.clients[..b.at] + [id];
    assert id !in b.clients[..b.at];
  }

  lemma NextDelivers(s: State, step: Step, b: nat)
    requires PointersSound(s) && Enabled(s, step)
    requires b in Next(s, step).broadcasts
    requires b in s.broadcasts ==> Delivering(s, s.broadcasts[b])
    ensures Delivering(Next(s, step), Next(s, step).broadcasts[b])
  {
    if step.Turn? && step.b == b {
      TurnDelivers(s, s.broadcasts[b]);
    }
  }

  lemma {:induction false} BroadcastsDeliver(s: State, steps: seq<Step>, b: nat)
    requires PointersSound(s) && ValidFrom(s, steps)
    requires b in s.broadcasts ==> Delivering(s, s.broadcasts[b])
    requires b in RunFrom(s, steps).broadcasts
    ensures Delivering(RunFrom(s, steps), RunFrom(s, steps).broadcasts[b])
    decreases |steps|
  {
    if steps != [] {
      var t := Next(s, steps[0]);
      PointersStaySound(s, [steps[0]]);
      assert RunFrom(s, [steps[0]]) == t;
      if b in t.broadcasts {
        NextDelivers(s, steps[0], b);
      }
      BroadcastsDeliver(t, steps[1..], b);
    }
  }

  // A finished broadcast has posted exactly once to every session of its
  // snapshot that is still alive, at most once to the others of the snapshot,
  // and to nobody else.
  lemma ExactlyOnceToTheLiving(steps: seq<Step>, b: nat)
    requires ValidFrom(Init(), steps)
    requires b in RunFrom(Init(), steps).broadcasts
    requires var c := RunFrom(Init(), steps).broadcasts[b]; c.at == |c.clients|
    ensures var s := RunFrom(Init(), steps);
            var c := s.broadcasts[b];
      && (forall id | id in c.clients && Is(s, id, Alive) :: multiset(c.posted)[id] == 1)
      && (forall id | id in c.clients :: multiset(c.posted)[id] <= 1)
      && (forall id | id !in c.clients :: multiset(c.posted)[id] == 0)
  {
    BroadcastsDeliver(Init(), steps, b);
    var c := RunFrom(Init(), steps).broadcasts[b];
    assert c.clients[..c.at] == c.clients;
    forall id ensures multiset(c.posted)[id] == if id in c.posted then 1 else 0 {
      CountInDistinct(c.posted, id);
    }
  }

  lemma {:induction false} CountInDistinct(ids: seq<Id>, id: Id)
    requires Distinct(ids)
    ensures multiset(ids)[id] == if id in ids then 1 else 0
  {
    if ids != [] {
      var n := |ids| - 1;
      assert ids == ids[..n] + [ids[n]];
      CountInDistinct(ids[..n], id);
    }
  }

  // A session that has begun to die before its turn gets nothing.
  lemma {:induction false} DyingGetsNothing(s: State, steps: seq<Step>, b: nat, id: Id)
    requires ValidFrom(s, steps) && b in s.broadcasts
    requires id in s.life && s.life[id] != Alive && id !in s.broadcasts[b].posted
    ensures b in RunFrom(s, steps).broadcasts
    ensures id !in RunFrom(s, steps).broadcasts[b].posted
    decreases |steps|
  {
    if steps != [] {
      DyingGetsNothing(Next(s, steps[0]), steps[1..], b, id);
    }
  }

  // A post is never taken back.
  lemma {:induction false} PostsStay(s: State, steps: seq<Step>, b: nat)
    requires ValidFrom(s, steps) && b in s.broadcasts
    ensures b in RunFrom(s, steps).broadcasts
    ensures s.broadcasts[b].posted <= RunFrom(s, steps).broadcasts[b].posted
    decreases |steps|
  {
    if steps != [] {
      PostsStay(Next(s, steps[0]), steps[1..], b);
    }
  }

  // The session whose turn it is gets exactly one post if it is alive at that
  // moment, even if it dies right after, and none otherwise, whatever happens
  // before and after.
  lemma PostedIffAliveAtTurn(steps: seq<Step>, b: nat, later: seq<Step>)
    requires ValidFrom(Init(), steps)
    requires Enabled(RunFrom(Init(), steps), Turn(b))
    requires ValidFrom(Next(RunFrom(Init(), steps), Turn(b)), later)
    ensures var s := RunFrom(Init(), steps);
            var id := s.broadcasts[b].clients[s.broadcasts[b].at];
            var t := RunFrom(Next(s, Turn(b)), later);
      b in t.broadcasts && multiset(t.broadcasts[b].posted)[id] == if Is(s, id, Alive) then 1 else 0
  {
    var s := RunFrom(Init(), steps);
    var c := s.broadcasts[b];
    var id, next := c.clients[c.at], Next(s, Turn(b));
    PointersStaySound(Init(), steps);
    BroadcastsDeliver(Init(), steps, b);
    assert id !in c.clients[..c.at];
    NextDelivers(s, Turn(b), b);
    PostsStay(next, later, b);
    BroadcastsDeliver(next, later, b);
    if Is(s, id, Alive) {
      assert id in next.broadcasts[b].posted;
    } else {
      DyingGetsNothing(next, later, b, id);
    }
    CountInDistinct(RunFrom(next, later).broadcasts[b].posted, id);
  }

  // ---------------------------------------------------------------------
  // The bus object
  // ---------------------------------------------------------------------

  class WebsocketDataBus {
    var sessions: set<Id>

    constructor ()
      ensures sessions == {}
    {
      sessions := {};
    }

    method RegisterSession(cli: Id)
      modifies this
      ensures sessions == old(sessions) + {cli}
    {
      sessions := sessions + {cli};
    }

    // A session that was never accepted is not found; that is only logged.
    method UnregisterSession(cli: Id) returns (removed: bool)
      modifies this
      ensures removed <==> cli in old(sessions)
      ensures sessions == old(sessions) - {cli}
    {
      removed := cli in sessions;
      if removed {
        sessions := sessions - {cli};
      }
    }

    // Collects the clients of a broadcast under the shared lock.
    method Clients() returns (clients: seq<Id>)
      ensures Visits(clients, sessions)
    {
      clients := [];
      var rest := sessions;
      while rest != {}
        invariant rest <= sessions
        invariant Visits(clients, sessions - rest)
        decreases |rest|
      {
        ghost var some := Element(rest);
        var cli :| cli in rest;
        clients := clients + [cli];
        rest := rest - {cli};
      }
    }
  }

  // The broadcast loop against any sequence of liveness answers: alive(i) says
  // whether the weak reference of turn i can be promoted.
  method MessageToWebclients(clients: seq<Id>, alive: int -> bool) returns (posted: seq<Id>)
    requires Distinct(clients)
    ensures Distinct(posted)
    ensures forall i | 0 <= i < |clients| :: clients[i] in posted <==> alive(i)
    ensures forall id | id in posted :: id in clients
  {
    posted := [];
    for i := 0 to |clients|
      invariant Distinct(posted)
      invariant forall k | 0 <= k < i :: clients[k] in posted <==> alive(k)
      invariant forall id | id in posted :: id in clients[..i]
    {
      assert clients[..i + 1] == clients[..i] + [clients[i]];
      assert clients[i] !in clients[..i];
      if alive(i) {
        posted := posted + [clients[i]];
      }
    }
  }
}
