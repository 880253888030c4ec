// Replay, tables, window queries and KPI joined: the KPI of a boundary does
// not depend on how the simulation was scheduled.
module EndToEnd {
  import opened Options
  import opened Readings
  import opened EnergyIntegration
  import opened KpiWindows
  import opened Settling
  import opened Replay
  import opened Simulation
  import opened Backlog

  // The table after the samples of data from index first on.
  ghost function Loaded(data: seq<Sample>, first: nat, to: nat): Column
    requires first <= to <= |data|
  {
    Store(map[], data[first..to], {})
  }

  // The tables once the whole recording has been replayed.
  ghost function FullEnergy(rec: Recording): Column {
    Loaded(rec.energy, rec.FirstEnergy(), |rec.energy|)
  }

  ghost function FullProduction(rec: Recording): Column {
    Loaded(rec.production, rec.FirstProduction(), |rec.production|)
  }

  // ---------------------------------------------------------------------
  // Tables of longer replays extend those of shorter ones
  // ---------------------------------------------------------------------

  ghost predicate Mentions(batch: seq<Sample>, t: int) {
    exists i :: 0 <= i < |batch| && batch[i].tp == t
  }

  lemma {:induction false} StoreKeys(c: Column, batch: seq<Sample>, t: int)
    ensures t in Store(c, batch, {}) <==> t in c || Mentions(batch, t)
    ensures !Mentions(batch, t) && t in c ==> Store(c, batch, {})[t] == c[t]
  {
    if batch != [] {
      var n := |batch| - 1;
      StoreKeys(c, batch[..n], t);
      assert Mentions(batch, t) <==> batch[n].tp == t || Mentions(batch[..n], t) by {
        if Mentions(batch[..n], t) {
          var i :| 0 <= i < n && batch[..n][i].tp == t;
          assert batch[i].tp == t;
        }
        if Mentions(batch, t) && batch[n].tp != t {
          var i :| 0 <= i < |batch| && batch[i].tp == t;
          assert batch[..n][i].tp == t;
        }
      }
    }
  }

  lemma LoadedSplits(data: seq<Sample>, first: nat, at: nat, to: nat)
    requires first <= at <= to <= |data|
    ensures Loaded(data, first, to) == Store(Loaded(data, first, at), data[at..to], {})
  {
    StoreConcat(map[], data[first..at], data[at..to]);
    assert data[first..at] + data[at..to] == data[first..to];
  }

  // What the samples from at to `to` add lies later than all before.
  lemma LoadedExtendsLater(data: seq<Sample>, first: nat, at: nat, to: nat)
    requires first <= at <= to <= |data| && BetweenTimes(data, at)
    ensures ExtendsLater(Loaded(data, first, at), Loaded(data, first, to))
  {
    var c, d := Loaded(data, first, at), Loaded(data, first, to);
    var late := data[at..to];
    LoadedSplits(data, first, at, to);
    forall t | t in c ensures !Mentions(late, t) && t in d && d[t] == c[t] {
      EarlyTime(data, first, at, t);
      StoreKeys(c, late, t);
    }
    forall t, u | t in c && u in d && u !in c ensures t < u {
      EarlyTime(data, first, at, t);
      StoreKeys(c, late, u);
      var j :| 0 <= j < |late| && late[j].tp == u;
      assert data[at + j].tp == u;
    }
  }

  lemma EarlyTime(data: seq<Sample>, first: nat, at: nat, t: int)
    requires first <= at <= |data| && BetweenTimes(data, at)
    requires t in Loaded(data, first, at)
    ensures forall j | at <= j < |data| :: t < data[j].tp
  {
    var early := data[first..at];
    StoreKeys(map[], early, t);
    var i :| 0 <= i < |early| && early[i].tp == t;
    assert data[first + i].tp == t;
  }

  lemma LoadedAgrees(data: seq<Sample>, first: nat, at: nat, to: nat, tp: int)
    requires first <= at <= to <= |data| && Past(data, at, tp)
    ensures AgreeUpTo(Loaded(data, first, at), Loaded(data, first, to), tp)
  {
    var c, late := Loaded(data, first, at), data[at..to];
    LoadedSplits(data, first, at, to);
    forall t | t <= tp
      ensures t in c <==> t in Store(c, late, {})
      ensures t in c ==> c[t] == Store(c, late, {})[t]
    {
      StoreKeys(c, late, t);
      assert forall j | 0 <= j < |late| :: late[j] == data[at + j];
      assert !Mentions(late, t);
    }
  }

  // ---------------------------------------------------------------------
  // Runs without insert failures
  // ---------------------------------------------------------------------

  ghost predicate Reliable(db: Database) {
    db.acquired && forall i :: db.query(i).ok
  }

  ghost predicate NoFailures(steps: seq<Step>) {
    forall k | 0 <= k < |steps| ::
      && (steps[k].EnergySlot? ==> Reliable(steps[k].db))
      && (steps[k].ProductionSlot? ==> Reliable(steps[k].db))
  }

  // The tables hold exactly the samples the cursors have passed.
  ghost predicate TablesLoaded(rec: Recording, s: State) {
    && rec.FirstEnergy() <= s.energyAt <= |rec.energy|
    && rec.FirstProduction() <= s.productionAt <= |rec.production|
    && s.energy == Loaded(rec.energy, rec.FirstEnergy(), s.energyAt)
    && s.production == Loaded(rec.production, rec.FirstProduction(), s.productionAt)
  }

  lemma {:induction false} TablesAreLoaded(rec: Recording, steps: seq<Step>)
    requires ValidRun(rec, steps) && NoFailures(steps)
    ensures TablesLoaded(rec, Run(rec, steps))
  {
    if steps == [] {
      assert rec.energy[rec.FirstEnergy()..rec.FirstEnergy()] == [];
      assert rec.production[rec.FirstProduction()..rec.FirstProduction()] == [];
    } else {
      var n := |steps| - 1;
      TablesAreLoaded(rec, steps[..n]);
      assert steps[n].EnergySlot? ==> Reliable(steps[n].db);
      assert steps[n].ProductionSlot? ==> Reliable(steps[n].db);
      var before := Run(rec, steps[..n]);
      hide TablesLoaded, NoFailures, Reliable, Next, Enabled;
      StepLoads(rec, before, steps[n]);
    }
  }

  lemma StepLoads(rec: Recording, s: State, step: Step)
    requires Bounded(rec, s) && Enabled(s, step) && TablesLoaded(rec, s)
    requires step.EnergySlot? || step.ProductionSlot? ==> Reliable(step.db)
    ensures TablesLoaded(rec, Next(rec, s, step))
  {
    hide KpiMessages, Store, Lost, Loaded, Reliable;
    var t := Next(rec, s, step);
    match step
    case Arrive(_, _) =>
    case EnergySlot(_, db) =>
      StoredWhole(rec.energy, rec.FirstEnergy(), s.energyAt, t.energyAt, db);
    case ProductionSlot(_, db) =>
      StoredWhole(rec.production, rec.FirstProduction(), s.productionAt, t.productionAt, db);
    case KpiBlock(_, _, _) =>
  }

  lemma StoredWhole(data: seq<Sample>, first: nat, at: nat, to: nat, db: Database)
    requires first <= at <= to <= |data| && Reliable(db)
    ensures Store(Loaded(data, first, at), data[at..to], Lost(db, to - at)) == Loaded(data, first, to)
  {
    assert Lost(db, to - at) == {};
    LoadedSplits(data, first, at, to);
  }

  // ---------------------------------------------------------------------
  // What a firing finds in the tables
  // ---------------------------------------------------------------------

  // Both recordings have been loaded up to the next boundary at least.
  ghost predicate Replayed(rec: Recording, s: State) {
    && TablesLoaded(rec, s)
    && BetweenTimes(rec.energy, s.energyAt)
    && Past(rec.energy, s.energyAt, s.next)
    && Past(rec.production, s.productionAt, s.next)
  }

  // The same boundary with the complete recording in the tables.
  ghost function Completed(rec: Recording, s: State): (t: State)
    ensures Replayed(rec, t) && t.next == s.next
    ensures t.energy == FullEnergy(rec) && t.production == FullProduction(rec)
  {
    s.(energyAt := |rec.energy|, energy := FullEnergy(rec),
       productionAt := |rec.production|, production := FullProduction(rec))
  }

  ghost predicate IsFiring(rec: Recording, steps: seq<Step>, step: Step) {
    && rec.IsSorted() && ValidRun(rec, steps) && NoFailures(steps)
    && Enabled(Run(rec, steps), step) && Fires(Run(rec, steps), step)
  }

  lemma FiringIsReplayed(rec: Recording, steps: seq<Step>, step: Step)
    requires IsFiring(rec, steps, step)
    ensures Replayed(rec, Run(rec, steps))
  {
    hide Select, SlotsPast, BoundariesSound, TablesLoaded, Past, BetweenTimes, NoFailures;
    KpiReadiness(rec, steps, step);
    RunKeepsInvariant(rec, steps);
    TablesAreLoaded(rec, steps);
  }

  // Two such states at one boundary differ in later rows only.
  lemma ReplayedAlike(rec: Recording, s: State, s': State, from: int)
    requires Replayed(rec, s) && Replayed(rec, s') && s.next == s'.next
    ensures AgreeUpTo(s.energy, s'.energy, s.next)
    ensures ExtendsLater(s.energy, s'.energy) || ExtendsLater(s'.energy, s.energy)
    ensures GetProduction(s.production, from, s.next) == GetProduction(s'.production, from, s.next)
  {
    hide Loaded, AgreeUpTo, ExtendsLater, GetProduction, Past, BetweenTimes;
    ReplayedEnergy(rec, s, s');
    ReplayedProduction(rec, s, s');
    ProductionStable(s.production, s'.production, from, s.next);
  }

  lemma ReplayedEnergy(rec: Recording, s: State, s': State)
    requires Replayed(rec, s) && Replayed(rec, s') && s.next == s'.next
    ensures AgreeUpTo(s.energy, s'.energy, s.next)
    ensures ExtendsLater(s.energy, s'.energy) || ExtendsLater(s'.energy, s.energy)
  {
    hide Loaded, ExtendsLater, Past, BetweenTimes;
    var data, first := rec.energy, rec.FirstEnergy();
    if s.energyAt <= s'.energyAt {
      LoadedAgrees(data, first, s.energyAt, s'.energyAt, s.next);
      LoadedExtendsLater(data, first, s.energyAt, s'.energyAt);
    } else {
      LoadedAgrees(data, first, s'.energyAt, s.energyAt, s.next);
      LoadedExtendsLater(data, first, s'.energyAt, s.energyAt);
    }
  }

  lemma ReplayedProduction(rec: Recording, s: State, s': State)
    requires Replayed(rec, s) && Replayed(rec, s') && s.next == s'.next
    ensures AgreeUpTo(s.production, s'.production, s.next)
  {
    hide Loaded, Past, BetweenTimes;
    var data, first := rec.production, rec.FirstProduction();
    if s.productionAt <= s'.productionAt {
      LoadedAgrees(data, first, s.productionAt, s'.productionAt, s.next);
    } else {
      LoadedAgrees(data, first, s'.productionAt, s.productionAt, s.next);
    }
  }

  // When a boundary fires, its windows already have all their production, and
  // they have the energy rows of the complete recording exactly if the table
  // holds a reading after the boundary or the recording never brings one.
  lemma WindowsCompleteIff(rec: Recording, steps: seq<Step>, step: Step, from: int)
    requires IsFiring(rec, steps, step) && from <= Run(rec, steps).next
    ensures var s := Run(rec, steps);
      && GetProduction(s.production, from, s.next) == GetProduction(FullProduction(rec), from, s.next)
      && (GetEnergy(s.energy, from, s.next) == GetEnergy(FullEnergy(rec), from, s.next)
          <==> HasReadingAfter(s.energy, s.next) || !HasReadingAfter(FullEnergy(rec), s.next))
  {
    var s := Run(rec, steps);
    FiringIsReplayed(rec, steps, step);
    hide IsFiring, GetEnergy, GetProduction, HasReadingAfter, FullProduction, TablesLoaded, Past, BetweenTimes;
    ReplayedAlike(rec, s, Completed(rec, s), from);
    hide Loaded, ExtendsLater, AgreeUpTo;
    LoadedExtendsLater(rec.energy, rec.FirstEnergy(), s.energyAt, |rec.energy|);
    EnergyStableIff(s.energy, FullEnergy(rec), from, s.next);
  }

  // ---------------------------------------------------------------------
  // Schedule independence
  // ---------------------------------------------------------------------

  lemma SameRowsSameKpi(c: Column, p: Column, p': Column, from: int, to: int)
    requires from < to && GetProduction(p, from, to) == GetProduction(p', from, to)
    ensures Kpi(c, p, from, to) == Kpi(c, p', from, to)
  {
    hide WindowEnergy, Total;
  }

  // Two states that have both been loaded up to their boundary rate a window
  // that ends there alike exactly under the condition of Settling.
  lemma ReplayedKpiIff(rec: Recording, s: State, s': State, from: int)
    requires Replayed(rec, s) && Replayed(rec, s') && from < s.next == s'.next
    ensures AgreeUpTo(s.energy, s'.energy, s.next)
    ensures Kpi(s.energy, s.production, from, s.next) == Kpi(s'.energy, s'.production, from, s.next)
       <==> SameKpi(s.energy, s'.energy, s.production, from, s.next)
  {
    hide Replayed, Kpi, SameKpi, AgreeUpTo, ExtendsLater, GetProduction;
    ReplayedAlike(rec, s, s', from);
    SameRowsSameKpi(s'.energy, s.production, s'.production, from, s.next);
    SameKpiIff(s.energy, s'.energy, s.production, from, s.next);
  }

  // The condition for the daily and for the weekly window of the next boundary.
  ghost predicate SameDaily(s: State, s': State)
    requires AgreeUpTo(s.energy, s'.energy, s.next)
  {
    SameKpi(s.energy, s'.energy, s.production, s.next - DAY, s.next)
  }

  ghost predicate SameWeekly(s: State, s': State)
    requires AgreeUpTo(s.energy, s'.energy, s.next)
  {
    SameKpi(s.energy, s'.energy, s.production, s.next - 7 * DAY, s.next)
  }

  // The KPIs of the next boundary are the same in both states exactly under
  // these conditions.
  ghost predicate KpisAgreeIff(s: State, s': State) {
    && AgreeUpTo(s.energy, s'.energy, s.next)
    && (DailyKpi(s.energy, s.production, s.next) == DailyKpi(s'.energy, s'.production, s.next)
        <==> SameDaily(s, s'))
    && (WeeklyKpi(s.energy, s.production, s.next) == WeeklyKpi(s'.energy, s'.production, s.next)
        <==> SameWeekly(s, s'))
  }

  lemma ReplayedKpisAgreeIff(rec: Recording, s: State, s': State)
    requires Replayed(rec, s) && Replayed(rec, s') && s.next == s'.next
    ensures KpisAgreeIff(s, s')
  {
    hide Replayed, Kpi, SameKpi, AgreeUpTo;
    ReplayedKpiIff(rec, s, s', s.next - DAY);
    ReplayedKpiIff(rec, s, s', s.next - 7 * DAY);
  }

  // The KPIs that a firing publishes are those of the complete recording
  // exactly when the reading after the boundary is loaded, or never comes, or
  // is idle.
  lemma KpiOfCompleteRecordingIff(rec: Recording, steps: seq<Step>, step: Step)
    requires IsFiring(rec, steps, step)
    ensures KpisAgreeIff(Run(rec, steps), Completed(rec, Run(rec, steps)))
  {
    var s := Run(rec, steps);
    hide *;
    FiringIsReplayed(rec, steps, step);
    ReplayedKpisAgreeIff(rec, s, Completed(rec, s));
  }

  // Two schedules of the same recording agree on the KPIs of a boundary exactly
  // when both or neither have loaded a reading after it, or that reading is
  // idle.
  lemma ScheduleIndependenceIff(rec: Recording, steps: seq<Step>, step: Step,
                                steps': seq<Step>, step': Step)
    requires IsFiring(rec, steps, step) && IsFiring(rec, steps', step')
    requires Run(rec, steps).next == Run(rec, steps').next
    ensures KpisAgreeIff(Run(rec, steps), Run(rec, steps'))
  {
    var s, s' := Run(rec, steps), Run(rec, steps');
    hide *;
    FiringIsReplayed(rec, steps, step);
    FiringIsReplayed(rec, steps', step');
    ReplayedKpisAgreeIff(rec, s, s');
  }

  // ---------------------------------------------------------------------
  // Two schedules that disagree
  // ---------------------------------------------------------------------

  const HOUR: int := 3600
  const START: int := 14 * DAY
  const BOUNDARY: int := START + SIX_HOURS

  // The last reading comes six hours after the boundary.
  function ExampleRecording(): Recording {
    Recording([Sample(0, Some(0.0)), Sample(START, Some(100.0)), Sample(START + 3 * HOUR, Some(110.0)),
               Sample(START + 12 * HOUR, Some(137.0))],
              [Sample(0, Some(0.0)), Sample(START + 3 * HOUR, Some(10.0))],
              START)
  }

  function EarlyTable(): Column {
    map[START := Some(100.0), START + 3 * HOUR := Some(110.0)]
  }

  function LateTable(): Column {
    map[START := Some(100.0), START + 3 * HOUR := Some(110.0), START + 12 * HOUR := Some(137.0)]
  }

  function ProductTable(): Column {
    map[START + 3 * HOUR := Some(10.0)]
  }

  lemma ExampleProducts()
    ensures GetProduction(ProductTable(), BOUNDARY - DAY, BOUNDARY) == [Reading(START + 3 * HOUR, 10.0)]
    ensures Total([Reading(START + 3 * HOUR, 10.0)]) == 10.0
  {
    OrderedUnique(GetProduction(ProductTable(), BOUNDARY - DAY, BOUNDARY), [Reading(START + 3 * HOUR, 10.0)]);
    assert [Reading(START + 3 * HOUR, 10.0)][..0] == [];
  }

  lemma EarlyKpi()
    ensures DailyKpi(EarlyTable(), ProductTable(), BOUNDARY) == 1.0
  {
    var rs := [Reading(START, 100.0), Reading(START + 3 * HOUR, 110.0)];
    TableIsWindow(EarlyTable(), rs, BOUNDARY - DAY, BOUNDARY);
    ExampleProducts();
    hide Lists, Splits, InTimeOrder, GetEnergy, GetProduction, Total;
    BelowIs(rs, BOUNDARY - DAY, 0);
    BelowIs(rs, BOUNDARY, 2);
    assert UnwrappedAt(rs, 0) == 0.0 && UnwrappedAt(rs, 1) == 10.0;
    assert WindowEnergy(rs, BOUNDARY - DAY, BOUNDARY) == 10.0;
  }

  lemma LateKpi()
    ensures DailyKpi(LateTable(), ProductTable(), BOUNDARY) == 1.9
  {
    var rs := [Reading(START, 100.0), Reading(START + 3 * HOUR, 110.0), Reading(START + 12 * HOUR, 137.0)];
    TableIsWindow(LateTable(), rs, BOUNDARY - DAY, BOUNDARY);
    ExampleProducts();
    hide Lists, Splits, InTimeOrder, GetEnergy, GetProduction, Total;
    BelowIs(rs, BOUNDARY - DAY, 0);
    BelowIs(rs, BOUNDARY, 2);
    assert UnwrappedAt(rs, 0) == 0.0 && UnwrappedAt(rs, 1) == 10.0;
    assert WindowEnergy(rs, BOUNDARY - DAY, BOUNDARY) == 19.0;
  }

  // The state of a first ping at time tp whose two slots have finished.
  lemma FirstPing(rec: Recording, tp: int, db: Database)
    requires rec.IsSorted() && Reliable(db)
    ensures var steps := PrepareSteps(0, tp, db, db);
      && ValidRun(rec, steps) && NoFailures(steps)
      && var s := Run(rec, steps);
      && s.live == map[0 := Ping(tp, true, true)]
      && s.next == SixAm(rec.tpInitial) && s.published == []
      && s.energy == Loaded(rec.energy, rec.FirstEnergy(), Advance(rec.energy, rec.FirstEnergy(), tp))
      && s.production
         == Loaded(rec.production, rec.FirstProduction(), Advance(rec.production, rec.FirstProduction(), tp))
  {
    var steps := PrepareSteps(0, tp, db, db);
    assert NoFailures(steps);
    hide *;
    FirstPingAt(rec, tp, db);
    TablesAreLoaded(rec, steps);
  }

  lemma FirstPingAt(rec: Recording, tp: int, db: Database)
    ensures var steps := PrepareSteps(0, tp, db, db);
      && ValidRun(rec, steps)
      && var s := Run(rec, steps);
      && s.live == map[0 := Ping(tp, true, true)]
      && s.next == SixAm(rec.tpInitial) && s.published == []
      && s.energyAt == Advance(rec.energy, rec.FirstEnergy(), tp)
      && s.productionAt == Advance(rec.production, rec.FirstProduction(), tp)
  {
    assert ValidRun(rec, []) && Run(rec, []) == Init(rec);
    hide Run, ValidRun, Store, Lost;
    var ps := PrepareSteps(0, tp, db, db);
    RunExtends(rec, [], ps[0]);
    assert [] + [ps[0]] == [ps[0]];
    RunExtends(rec, [ps[0]], ps[1]);
    RunExtends(rec, [ps[0]] + [ps[1]], ps[2]);
    assert ps == [ps[0]] + [ps[1]] + [ps[2]];
  }

  lemma ExampleEnergyCursors()
    ensures var energy := ExampleRecording().energy;
      && Sorted(energy) && FirstNotBefore(energy, START) == 1
      && Advance(energy, 1, BOUNDARY) == 3 && Advance(energy, 1, START + 12 * HOUR) == 4
  {
    var energy := ExampleRecording().energy;
    hide Advance, FirstNotBefore;
    FirstIs(energy, START, 1);
    CursorIs(energy, 1, BOUNDARY, 3);
    CursorIs(energy, 1, START + 12 * HOUR, 4);
  }

  lemma ExampleProductionCursors()
    ensures var production := ExampleRecording().production;
      && Sorted(production) && FirstNotBefore(production, START) == 1
      && Advance(production, 1, BOUNDARY) == 2 && Advance(production, 1, START + 12 * HOUR) == 2
  {
    var production := ExampleRecording().production;
    hide Advance, FirstNotBefore;
    FirstIs(production, START, 1);
    CursorIs(production, 1, BOUNDARY, 2);
    CursorIs(production, 1, START + 12 * HOUR, 2);
  }

  lemma FirstIs(data: seq<Sample>, tp: int, at: nat)
    requires Sorted(data) && at <= |data|
    requires 0 < at ==> data[at - 1].tp < tp
    requires at < |data| ==> tp <= data[at].tp
    ensures FirstNotBefore(data, tp) == at
  {
  }

  lemma CursorIs(data: seq<Sample>, at: nat, tp: int, to: nat)
    requires Sorted(data) && at <= to <= |data|
    requires at < to ==> data[to - 1].tp <= tp
    requires to < |data| ==> tp < data[to].tp
    ensures Advance(data, at, tp) == to
  {
  }

  lemma ExampleTables()
    ensures var rec := ExampleRecording();
      && Loaded(rec.energy, 1, 3) == EarlyTable()
      && Loaded(rec.energy, 1, 4) == LateTable()
      && Loaded(rec.production, 1, 2) == ProductTable()
  {
    var rec := ExampleRecording();
    var e, p := rec.energy[1..4], rec.production[1..2];
    assert e[..0] == [] && e[..1] == [rec.energy[1]] && e[..2][..1] == e[..1] && e[..3] == e;
    assert rec.energy[1..3] == e[..2] && p[..0] == [];
    assert Store(map[], e[..1], {}) == map[START := Some(100.0)];
    assert Store(map[], e[..2], {}) == EarlyTable();
  }

  lemma FirstMessage(rec: Recording, s: State, tp: int, kpi: real)
    requires Bounded(rec, s) && s.live == map[0 := Ping(tp, true, true)]
    requires s.next == BOUNDARY <= tp && s.published == []
    requires DailyKpi(s.energy, s.production, BOUNDARY) == kpi
    ensures var step := KpiBlock(0, false, false);
      Enabled(s, step) && Fires(s, step) && Next(rec, s, step).published == [Daily(tp, kpi)]
  {
    hide DailyKpi, WeeklyKpi;
    assert Weekday(BOUNDARY) == 4;
  }

  // The daily KPI after the samples up to tp.
  ghost function KpiAt(rec: Recording, tp: int, boundary: int): real {
    DailyKpi(Loaded(rec.energy, rec.FirstEnergy(), Advance(rec.energy, rec.FirstEnergy(), tp)),
             Loaded(rec.production, rec.FirstProduction(), Advance(rec.production, rec.FirstProduction(), tp)),
             boundary)
  }

  ghost predicate Publishes(rec: Recording, steps: seq<Step>, message: Message) {
    var step := KpiBlock(0, false, false);
    && ValidRun(rec, steps) && NoFailures(steps)
    && Enabled(Run(rec, steps), step) && Fires(Run(rec, steps), step)
    && Next(rec, Run(rec, steps), step).published == [message]
  }

  lemma FirstPingPublishes(rec: Recording, tp: int, db: Database)
    requires rec.IsSorted() && Reliable(db) && SixAm(rec.tpInitial) == BOUNDARY <= tp
    ensures var steps := PrepareSteps(0, tp, db, db);
      && Publishes(rec, steps, Daily(tp, KpiAt(rec, tp, BOUNDARY)))
      && Run(rec, steps).next == BOUNDARY
  {
    FirstPing(rec, tp, db);
    hide Run, ValidRun, DailyKpi, Loaded, NoFailures, Enabled, Fires, Next, PrepareSteps;
    FirstMessage(rec, Run(rec, PrepareSteps(0, tp, db, db)), tp, KpiAt(rec, tp, BOUNDARY));
  }

  lemma ExampleKpis()
    ensures var rec := ExampleRecording();
      && rec.IsSorted() && SixAm(rec.tpInitial) == BOUNDARY
      && KpiAt(rec, BOUNDARY, BOUNDARY) == 1.0
      && KpiAt(rec, START + 12 * HOUR, BOUNDARY) == 1.9
  {
    ExampleEnergyCursors();
    ExampleProductionCursors();
    ExampleTables();
    EarlyKpi();
    LateKpi();
    hide Loaded, DailyKpi, Advance, FirstNotBefore, EarlyTable, LateTable, ProductTable, Sorted;
  }

  // Without that reading the published KPI does depend on the schedule: the
  // same day is rated 1.0 if the ping at the boundary computes it, and 1.9 if
  // the first ping after the next reading does.
  lemma SchedulesDisagree(db: Database) returns (early: seq<Step>, late: seq<Step>)
    requires Reliable(db)
    ensures ExampleRecording().IsSorted()
    ensures Publishes(ExampleRecording(), early, Daily(BOUNDARY, 1.0))
    ensures Publishes(ExampleRecording(), late, Daily(START + 12 * HOUR, 1.9))
    ensures Run(ExampleRecording(), early).next == BOUNDARY == Run(ExampleRecording(), late).next
  {
    var rec := ExampleRecording();
    early, late := PrepareSteps(0, BOUNDARY, db, db), PrepareSteps(0, START + 12 * HOUR, db, db);
    ExampleKpis();
    hide Publishes, Run, KpiAt, PrepareSteps, ExampleRecording;
    FirstPingPublishes(rec, BOUNDARY, db);
    FirstPingPublishes(rec, START + 12 * HOUR, db);
  }
}
