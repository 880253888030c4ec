// When a KPI boundary stays overdue: the trigger handles one boundary per ping,
// and handles the pings in the order in which they complete.
module Backlog {
  import opened KpiWindows
  import opened Replay
  import opened Simulation

  // The next boundary after KPI blocks for pings of the given times, in order.
  ghost function NextAfter(next: int, pings: seq<int>): int {
    if pings == [] then next
    else Trigger(NextAfter(next, pings[..|pings| - 1]), pings[|pings| - 1])
  }

  // A boundary is overdue when the simulation has reached it and it has not fired.
  ghost predicate NeverOverdue(next: int, pings: seq<int>) {
    forall n | 0 < n <= |pings| :: Latest(pings[..n]) < NextAfter(next, pings[..n])
  }

  // ---------------------------------------------------------------------
  // The exact condition
  // ---------------------------------------------------------------------

  // The first of the boundaries b0, b0 + 24 h, ... that lies after x.
  function BoundaryAfter(b0: int, x: int): int {
    if x < b0 then b0 else b0 + ((x - b0) / DAY + 1) * DAY
  }

  lemma BoundaryAfterIsFirst(b0: int, x: int, k: nat)
    ensures x < BoundaryAfter(b0, x)
    ensures b0 + k * DAY == BoundaryAfter(b0, x) <==> x < b0 + k * DAY && (k == 0 || b0 + (k - 1) * DAY <= x)
  {
  }

  // The first boundary that none of the given pings has reached.
  ghost function Unreached(b0: int, pings: seq<int>): int {
    if pings == [] then b0 else BoundaryAfter(b0, Latest(pings))
  }

  // No ping reaches a second boundary past those reached before it.
  ghost predicate OneAtATime(b0: int, pings: seq<int>) {
    forall n | 0 <= n < |pings| :: pings[n] < Unreached(b0, pings[..n]) + DAY
  }

  // The trigger never runs ahead of the pings.
  lemma {:induction false} NextShape(b0: int, pings: seq<int>) returns (k: nat)
    ensures NextAfter(b0, pings) == b0 + k * DAY
    ensures k > 0 ==> pings != [] && b0 + (k - 1) * DAY <= Latest(pings)
    ensures k <= |pings|
  {
    if pings == [] {
      k := 0;
    } else {
      var n := |pings| - 1;
      k := NextShape(b0, pings[..n]);
      if pings[n] >= b0 + k * DAY {
        k := k + 1;
      }
    }
  }

  lemma NextIsUnreached(b0: int, pings: seq<int>)
    requires pings != [] ==> Latest(pings) < NextAfter(b0, pings)
    ensures NextAfter(b0, pings) == Unreached(b0, pings)
  {
    var k := NextShape(b0, pings);
    if pings != [] {
      BoundaryAfterIsFirst(b0, Latest(pings), k);
    }
  }

  lemma PrefixesOfPrefix(pings: seq<int>, n: nat)
    requires n <= |pings|
    ensures forall m | 0 <= m <= n :: pings[..n][..m] == pings[..m]
  {
  }

  lemma NeverOverdueStep(b0: int, pings: seq<int>)
    requires pings != []
    ensures NeverOverdue(b0, pings)
       <==> NeverOverdue(b0, pings[..|pings| - 1]) && Latest(pings) < NextAfter(b0, pings)
  {
    hide NextAfter, Latest;
    PrefixesOfPrefix(pings, |pings| - 1);
    assert pings[..|pings|] == pings;
  }

  lemma OneAtATimeStep(b0: int, pings: seq<int>)
    requires pings != []
    ensures var n := |pings| - 1;
      OneAtATime(b0, pings)
      <==> OneAtATime(b0, pings[..n]) && pings[n] < Unreached(b0, pings[..n]) + DAY
  {
    hide Unreached;
    PrefixesOfPrefix(pings, |pings| - 1);
  }

  // For any order of completion: no boundary is ever overdue exactly when no
  // ping reaches more than one boundary past those reached before it.
  lemma {:induction false} NeverOverdueIff(b0: int, pings: seq<int>)
    ensures NeverOverdue(b0, pings) <==> OneAtATime(b0, pings)
    ensures NeverOverdue(b0, pings) ==> NextAfter(b0, pings) == Unreached(b0, pings)
  {
    if pings != [] {
      var n := |pings| - 1;
      NeverOverdueIff(b0, pings[..n]);
      NeverOverdueStep(b0, pings);
      OneAtATimeStep(b0, pings);
      hide NeverOverdue, OneAtATime;
      if NeverOverdue(b0, pings) {
        NextIsUnreached(b0, pings);
      }
      if n > 0 && OneAtATime(b0, pings[..n]) {
        BoundaryAfterIsFirst(b0, Latest(pings[..n]), 0);
      }
    }
  }

  // ---------------------------------------------------------------------
  // Runs of the state machine
  // ---------------------------------------------------------------------

  // The times of the pings whose KPI block has run, in the order of these blocks.
  ghost function KpiTimes(rec: Recording, steps: seq<Step>): seq<int>
    requires ValidRun(rec, steps)
  {
    if steps == [] then [] else
      var n := |steps| - 1;
      KpiTimes(rec, steps[..n])
      + if steps[n].KpiBlock? then [Run(rec, steps[..n]).live[steps[n].id].tp] else []
  }

  // In every interleaving the next boundary depends on nothing but these times:
  // not on the slots, the database or the failures.
  lemma {:induction false} NextOfRun(rec: Recording, steps: seq<Step>)
    requires ValidRun(rec, steps)
    ensures Run(rec, steps).next == NextAfter(SixAm(rec.tpInitial), KpiTimes(rec, steps))
  {
    if steps != [] {
      var n := |steps| - 1;
      NextOfRun(rec, steps[..n]);
      TriggerIsKpiBlock(rec, Run(rec, steps[..n]), steps[n]);
      var before, times := KpiTimes(rec, steps[..n]), KpiTimes(rec, steps);
      hide Next, Enabled;
      if steps[n].KpiBlock? {
        assert times[..|times| - 1] == before;
      } else {
        assert times == before;
      }
    }
  }

  lemma PrefixIsRun(rec: Recording, steps: seq<Step>, m: nat)
    requires ValidRun(rec, steps) && m <= |steps|
    ensures ValidRun(rec, steps[..m])
    decreases |steps| - m
  {
    if m == |steps| {
      assert steps[..m] == steps;
    } else {
      PrefixIsRun(rec, steps, m + 1);
      assert steps[..m + 1][..m] == steps[..m];
    }
  }

  // No boundary is overdue in any state the run goes through.
  ghost predicate RunNeverOverdue(rec: Recording, steps: seq<Step>)
    requires ValidRun(rec, steps)
  {
    forall m | 0 <= m <= |steps| :: InTimeAfter(rec, steps, m)
  }

  ghost predicate InTimeAfter(rec: Recording, steps: seq<Step>, m: nat)
    requires ValidRun(rec, steps) && m <= |steps|
  {
    PrefixIsRun(rec, steps, m);
    var done := KpiTimes(rec, steps[..m]);
    done != [] ==> Latest(done) < Run(rec, steps[..m]).next
  }

  // So no interleaving leaves a boundary overdue at any moment exactly when no
  // completed ping had reached a second boundary past those reached by the
  // pings completed before it.
  lemma RunNeverOverdueIff(rec: Recording, steps: seq<Step>)
    requires ValidRun(rec, steps)
    ensures RunNeverOverdue(rec, steps) <==> OneAtATime(SixAm(rec.tpInitial), KpiTimes(rec, steps))
  {
    NeverOverdueIff(SixAm(rec.tpInitial), KpiTimes(rec, steps));
    RunAndTimes(rec, steps);
  }

  lemma {:induction false} RunAndTimes(rec: Recording, steps: seq<Step>)
    requires ValidRun(rec, steps)
    ensures RunNeverOverdue(rec, steps) <==> NeverOverdue(SixAm(rec.tpInitial), KpiTimes(rec, steps))
  {
    if steps == [] {
    } else {
      var n, b0 := |steps| - 1, SixAm(rec.tpInitial);
      var before, times := KpiTimes(rec, steps[..n]), KpiTimes(rec, steps);
      RunAndTimes(rec, steps[..n]);
      NextOfRun(rec, steps);
      RunStep(rec, steps);
      if steps[n].KpiBlock? {
        assert times[..|times| - 1] == before;
        NeverOverdueStep(b0, times);
      } else {
        assert times == before;
        assert times != [] ==> times[..|times|] == times;
      }
    }
  }

  lemma RunStep(rec: Recording, steps: seq<Step>)
    requires ValidRun(rec, steps) && steps != []
    ensures var n, done := |steps| - 1, KpiTimes(rec, steps);
      RunNeverOverdue(rec, steps)
      <==> RunNeverOverdue(rec, steps[..n]) && (done != [] ==> Latest(done) < Run(rec, steps).next)
  {
    hide Latest, KpiTimes, Run;
    var n := |steps| - 1;
    assert steps[..n + 1] == steps;
    assert InTimeAfter(rec, steps, n + 1)
      <==> (KpiTimes(rec, steps) != [] ==> Latest(KpiTimes(rec, steps)) < Run(rec, steps).next);
    forall m | 0 <= m <= n
      ensures InTimeAfter(rec, steps, m) <==> InTimeAfter(rec, steps[..n], m)
    {
      assert steps[..n][..m] == steps[..m];
    }
  }

  lemma TimesExtend(rec: Recording, steps: seq<Step>, step: Step)
    requires ValidRun(rec, steps) && Enabled(Run(rec, steps), step)
    ensures ValidRun(rec, steps + [step])
    ensures KpiTimes(rec, steps + [step])
         == KpiTimes(rec, steps) + if step.KpiBlock? then [Run(rec, steps).live[step.id].tp] else []
  {
    RunExtends(rec, steps, step);
    assert (steps + [step])[..|steps|] == steps;
  }

  lemma EmptyRun(rec: Recording)
    ensures ValidRun(rec, []) && KpiTimes(rec, []) == [] && Run(rec, []).live == map[]
  {
  }

  // The first three steps of a ping: its KPI block may run from then on.
  ghost function PrepareSteps(id: nat, tp: int, dbEnergy: Database, dbProduction: Database): seq<Step> {
    [Arrive(id, tp), EnergySlot(id, dbEnergy), ProductionSlot(id, dbProduction)]
  }

  lemma PrepareIsRun(rec: Recording, steps: seq<Step>, id: nat, tp: int, dbEnergy: Database, dbProduction: Database)
    requires ValidRun(rec, steps) && id !in Run(rec, steps).live
    ensures var longer := steps + PrepareSteps(id, tp, dbEnergy, dbProduction);
      && ValidRun(rec, longer)
      && Run(rec, longer).live == Run(rec, steps).live[id := Ping(tp, true, true)]
      && KpiTimes(rec, longer) == KpiTimes(rec, steps)
  {
    hide Run, ValidRun, KpiTimes, Store, Lost;
    var ps := PrepareSteps(id, tp, dbEnergy, dbProduction);
    var r1 := steps + [ps[0]];
    TimesExtend(rec, steps, ps[0]);
    RunExtends(rec, steps, ps[0]);
    var r2 := r1 + [ps[1]];
    TimesExtend(rec, r1, ps[1]);
    RunExtends(rec, r1, ps[1]);
    TimesExtend(rec, r2, ps[2]);
    RunExtends(rec, r2, ps[2]);
    assert steps + ps == r2 + [ps[2]];
  }

  lemma FinishIsRun(rec: Recording, steps: seq<Step>, id: nat, dailyFails: bool, weeklyFails: bool)
    requires ValidRun(rec, steps) && Enabled(Run(rec, steps), KpiBlock(id, dailyFails, weeklyFails))
    ensures var longer := steps + [KpiBlock(id, dailyFails, weeklyFails)];
      && ValidRun(rec, longer)
      && Run(rec, longer).live == Run(rec, steps).live - {id}
      && KpiTimes(rec, longer) == KpiTimes(rec, steps) + [Run(rec, steps).live[id].tp]
  {
    hide KpiMessages, Run, ValidRun, KpiTimes;
    TimesExtend(rec, steps, KpiBlock(id, dailyFails, weeklyFails));
    RunExtends(rec, steps, KpiBlock(id, dailyFails, weeklyFails));
  }

  // ---------------------------------------------------------------------
  // Pings processed one after the other
  // ---------------------------------------------------------------------

  // One ping, with what its inserts and its KPI calculations met.
  datatype Visit = Visit(id: nat, tp: int, dbEnergy: Database, dbProduction: Database,
                         dailyFails: bool, weeklyFails: bool)

  ghost function TimesOf(visits: seq<Visit>): seq<int> {
    seq(|visits|, i requires 0 <= i < |visits| => visits[i].tp)
  }

  ghost function SerialSteps(visits: seq<Visit>): seq<Step> {
    if visits == [] then [] else
      var n := |visits| - 1;
      var v := visits[n];
      SerialSteps(visits[..n])
      + PingSteps(v.id, v.tp, v.dbEnergy, v.dbProduction, v.dailyFails, v.weeklyFails)
  }

  lemma {:induction false} SerialRun(rec: Recording, visits: seq<Visit>)
    ensures ValidRun(rec, SerialSteps(visits))
    ensures Run(rec, SerialSteps(visits)).live == map[]
    ensures KpiTimes(rec, SerialSteps(visits)) == TimesOf(visits)
  {
    hide Run, ValidRun, KpiTimes, PingSteps;
    if visits == [] {
      EmptyRun(rec);
    } else {
      var n := |visits| - 1;
      var v := visits[n];
      var steps := SerialSteps(visits[..n]);
      SerialRun(rec, visits[..n]);
      VisitIsRun(rec, steps, v);
      assert TimesOf(visits) == TimesOf(visits[..n]) + [v.tp];
    }
  }

  lemma VisitIsRun(rec: Recording, steps: seq<Step>, v: Visit)
    requires ValidRun(rec, steps) && v.id !in Run(rec, steps).live
    ensures var longer :=
        steps + PingSteps(v.id, v.tp, v.dbEnergy, v.dbProduction, v.dailyFails, v.weeklyFails);
      && ValidRun(rec, longer)
      && Run(rec, longer).live == Run(rec, steps).live
      && KpiTimes(rec, longer) == KpiTimes(rec, steps) + [v.tp]
  {
    hide Run, ValidRun, KpiTimes;
    var prepare := PrepareSteps(v.id, v.tp, v.dbEnergy, v.dbProduction);
    PrepareIsRun(rec, steps, v.id, v.tp, v.dbEnergy, v.dbProduction);
    FinishIsRun(rec, steps + prepare, v.id, v.dailyFails, v.weeklyFails);
    assert steps + PingSteps(v.id, v.tp, v.dbEnergy, v.dbProduction, v.dailyFails, v.weeklyFails)
        == steps + prepare + [KpiBlock(v.id, v.dailyFails, v.weeklyFails)];
  }

  // With any outcome of the inserts and calculations, no boundary is overdue
  // at any moment exactly under the same condition on the times of the pings.
  lemma SerialNeverOverdueIff(rec: Recording, visits: seq<Visit>)
    ensures ValidRun(rec, SerialSteps(visits))
    ensures RunNeverOverdue(rec, SerialSteps(visits)) <==> OneAtATime(SixAm(rec.tpInitial), TimesOf(visits))
  {
    SerialRun(rec, visits);
    RunNeverOverdueIff(rec, SerialSteps(visits));
  }

  // Pings at most a day apart, the first at the initial time, keep up.
  lemma NoBacklog(tp0: int, pings: seq<int>)
    requires pings != [] ==> pings[0] == tp0
    requires forall i | 0 < i < |pings| :: pings[i] - pings[i - 1] <= DAY
    ensures NeverOverdue(SixAm(tp0), pings)
  {
    var b0 := SixAm(tp0);
    forall n | 0 <= n < |pings| ensures pings[n] < Unreached(b0, pings[..n]) + DAY {
      if n > 0 {
        assert pings[..n][n - 1] == pings[n - 1] <= Latest(pings[..n]);
        BoundaryAfterIsFirst(b0, Latest(pings[..n]), 0);
      }
    }
    NeverOverdueIff(b0, pings);
  }

  // ---------------------------------------------------------------------
  // A clock of constant speed
  // ---------------------------------------------------------------------

  function SteadyPings(tp0: int, speed: int, n: nat): seq<int> {
    seq(n + 1, i => tp0 + i * speed)
  }

  lemma SteadyGaps(tp0: int, speed: int, n: nat, i: nat)
    requires 0 < i <= n
    ensures SteadyPings(tp0, speed, n)[i] - SteadyPings(tp0, speed, n)[i - 1] == speed
  {
    assert i * speed - (i - 1) * speed == speed;
  }

  // A clock that runs `speed` seconds per tick keeps up with the boundaries
  // for ever exactly when it runs at most one day per tick.
  lemma KeepsUpIffOneDayPerTick(tp0: int, speed: int)
    ensures (forall n: nat :: NeverOverdue(SixAm(tp0), SteadyPings(tp0, speed, n))) <==> speed <= DAY
  {
    var b0 := SixAm(tp0);
    if speed <= DAY {
      forall n: nat ensures NeverOverdue(b0, SteadyPings(tp0, speed, n)) {
        forall i | 0 < i <= n
          ensures SteadyPings(tp0, speed, n)[i] - SteadyPings(tp0, speed, n)[i - 1] <= DAY
        {
          SteadyGaps(tp0, speed, n, i);
        }
        NoBacklog(tp0, SteadyPings(tp0, speed, n));
      }
    } else {
      // one boundary per ping is too few: each tick gains at least a second
      var n := 3 * DAY;
      var pings := SteadyPings(tp0, speed, n);
      assert n * speed >= n * (DAY + 1);
      assert !NeverOverdue(b0, pings) by {
        var k := NextShape(b0, pings);
        assert pings[n] <= Latest(pings);
        assert pings[..n + 1] == pings;
      }
    }
  }

  // ---------------------------------------------------------------------
  // Completion out of order
  // ---------------------------------------------------------------------

  // All pings are done and no boundary was overdue at any moment.
  ghost predicate KeepsUp(rec: Recording, steps: seq<Step>) {
    && ValidRun(rec, steps) && Run(rec, steps).live == map[]
    && RunNeverOverdue(rec, steps)
  }

  // All pings are done and a boundary is still overdue.
  ghost predicate FallsBehind(rec: Recording, steps: seq<Step>) {
    && ValidRun(rec, steps) && Run(rec, steps).live == map[]
    && KpiTimes(rec, steps) != [] && Run(rec, steps).next <= Latest(KpiTimes(rec, steps))
  }

  // Three detached pings a day apart, all in progress: if their KPI blocks run
  // in order, nothing is ever overdue; the same steps with these blocks in
  // reverse leave a boundary overdue.
  lemma OrderOfCompletionMatters(rec: Recording, db: Database)
    returns (inOrder: seq<Step>, reversed: seq<Step>)
    ensures multiset(inOrder) == multiset(reversed)
    ensures KeepsUp(rec, inOrder) && FallsBehind(rec, reversed)
  {
    hide *;
    var waiting := ThreePings(rec, db);
    inOrder := ThreeInOrder(rec, waiting);
    reversed := ThreeReversed(rec, waiting);
  }

  // Three pings, at the first three boundaries, whose KPI blocks are next.
  ghost predicate Waiting(rec: Recording, steps: seq<Step>) {
    var b := SixAm(rec.tpInitial);
    && ValidRun(rec, steps) && KpiTimes(rec, steps) == []
    && Run(rec, steps).live
       == map[0 := Ping(b, true, true), 1 := Ping(b + DAY, true, true), 2 := Ping(b + 2 * DAY, true, true)]
  }

  ghost function ThreeBlocks(): multiset<Step> {
    multiset{KpiBlock(0, false, false), KpiBlock(1, false, false), KpiBlock(2, false, false)}
  }

  lemma ThreeInOrder(rec: Recording, waiting: seq<Step>) returns (steps: seq<Step>)
    requires Waiting(rec, waiting)
    ensures multiset(steps) == multiset(waiting) + ThreeBlocks() && KeepsUp(rec, steps)
  {
    hide Run, ValidRun, KpiTimes, RunNeverOverdue, OneAtATime;
    steps := FinishThree(rec, waiting, 0, 1, 2);
    InOrderKeepsUp(SixAm(rec.tpInitial));
    RunNeverOverdueIff(rec, steps);
  }

  lemma ThreeReversed(rec: Recording, waiting: seq<Step>) returns (steps: seq<Step>)
    requires Waiting(rec, waiting)
    ensures multiset(steps) == multiset(waiting) + ThreeBlocks() && FallsBehind(rec, steps)
  {
    hide Run, ValidRun, KpiTimes, Latest, NextAfter;
    steps := FinishThree(rec, waiting, 2, 1, 0);
    ReversedFallsBehind(SixAm(rec.tpInitial));
    NextOfRun(rec, steps);
  }

  lemma ThreePings(rec: Recording, db: Database) returns (steps: seq<Step>)
    ensures Waiting(rec, steps)
  {
    hide *;
    var b := SixAm(rec.tpInitial);
    steps := [];
    EmptyRun(rec);
    steps := PreparedPing(rec, steps, 0, b, db);
    steps := PreparedPing(rec, steps, 1, b + DAY, db);
    steps := PreparedPing(rec, steps, 2, b + 2 * DAY, db);
    IsWaiting(rec, steps);
  }

  lemma IsWaiting(rec: Recording, steps: seq<Step>)
    requires ValidRun(rec, steps) && KpiTimes(rec, steps) == []
    requires var b := SixAm(rec.tpInitial);
      Run(rec, steps).live
      == map[0 := Ping(b, true, true), 1 := Ping(b + DAY, true, true), 2 := Ping(b + 2 * DAY, true, true)]
    ensures Waiting(rec, steps)
  {
  }

  lemma PreparedPing(rec: Recording, steps: seq<Step>, id: nat, tp: int, db: Database) returns (longer: seq<Step>)
    requires ValidRun(rec, steps) && id !in Run(rec, steps).live && KpiTimes(rec, steps) == []
    ensures ValidRun(rec, longer) && KpiTimes(rec, longer) == []
    ensures Run(rec, longer).live == Run(rec, steps).live[id := Ping(tp, true, true)]
  {
    PrepareIsRun(rec, steps, id, tp, db, db);
    longer := steps + PrepareSteps(id, tp, db, db);
  }

  lemma FinishThree(rec: Recording, waiting: seq<Step>, i: nat, j: nat, k: nat) returns (steps: seq<Step>)
    requires ValidRun(rec, waiting) && KpiTimes(rec, waiting) == []
    requires var live := Run(rec, waiting).live;
      && live.Keys == {i, j, k} && i != j && j != k && i != k
      && (forall id | id in live :: live[id].energyDone && live[id].productionDone)
    ensures ValidRun(rec, steps) && Run(rec, steps).live == map[]
    ensures var live := Run(rec, waiting).live;
      KpiTimes(rec, steps) == [live[i].tp, live[j].tp, live[k].tp]
    ensures multiset(steps) == multiset(waiting)
      + multiset{KpiBlock(i, false, false), KpiBlock(j, false, false), KpiBlock(k, false, false)}
  {
    hide Run, ValidRun, KpiTimes;
    steps := waiting;
    FinishIsRun(rec, steps, i, false, false);
    steps := steps + [KpiBlock(i, false, false)];
    FinishIsRun(rec, steps, j, false, false);
    steps := steps + [KpiBlock(j, false, false)];
    FinishIsRun(rec, steps, k, false, false);
    steps := steps + [KpiBlock(k, false, false)];
  }

  lemma InOrderKeepsUp(b: int)
    ensures OneAtATime(b, [b, b + DAY, b + 2 * DAY])
  {
    var up := [b, b + DAY, b + 2 * DAY];
    assert up[..0] == [] && up[..1] == [b] && up[..2] == [b, b + DAY] && up[..2][..1] == [b];
    assert Latest([b]) == b && Latest([b, b + DAY]) == b + DAY;
  }

  lemma ReversedFallsBehind(b: int)
    ensures var down := [b + 2 * DAY, b + DAY, b];
      NextAfter(b, down) == b + 2 * DAY == Latest(down)
  {
    var down := [b + 2 * DAY, b + DAY, b];
    assert down[..0] == [];
    assert down[..2] == [b + 2 * DAY, b + DAY] && down[..2][..1] == [b + 2 * DAY];
    assert down[..2][..1][..0] == [];
    assert Latest([b + 2 * DAY, b + DAY]) == b + 2 * DAY;
    assert NextAfter(b, [b + 2 * DAY]) == b + DAY;
    assert NextAfter(b, [b + 2 * DAY, b + DAY]) == b + 2 * DAY;
  }
}
