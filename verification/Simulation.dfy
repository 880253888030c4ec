// The simulation loop of Application.cpp: every ping replays both recordings
// up to its time and then tests whether a KPI boundary is due.
//
// Ping threads are detached, so several pings are in progress at once. One
// pingSlot and one KPI block are each taken as an atomic step; the steps of
// different pings interleave freely.
module Simulation {
  import opened Readings
  import opened EnergyIntegration
  import opened KpiWindows
  import opened Replay

  const SIX_HOURS: int := 21600

  // 06:00 UTC on the day of tp, and the weekday of tp with Sunday as 0.
  // The epoch was a Thursday. / and % round down, as calendar days do.
  function SixAm(tp: int): int {
    tp / DAY * DAY + SIX_HOURS
  }

  function Weekday(tp: int): int {
    (tp / DAY + 4) % 7
  }

  // 06:00 on the same UTC day, in seconds.
  lemma SixAmIsToday(tp: int)
    ensures SixAm(tp) / 86400 == tp / 86400 && SixAm(tp) % 86400 == 6 * 3600
  {
    QuotientAndRest(tp / DAY, SIX_HOURS);
  }

  // The weekday is that of the calendar: the epoch was a Thursday, it is the
  // same all day long, and each day has the one after that of the day before.
  lemma WeekdayOfCalendar(tp: int)
    ensures Weekday(0) == 4
    ensures Weekday(tp) == Weekday(tp / 86400 * 86400)
    ensures Weekday(tp + 86400) == (Weekday(tp) + 1) % 7
  {
    QuotientAndRest(tp / DAY, 0);
    assert (tp + DAY) / DAY == tp / DAY + 1;
  }

  datatype Recording = Recording(energy: seq<Sample>, production: seq<Sample>, tpInitial: int)
  {
    ghost predicate IsSorted() {
      Sorted(energy) && Sorted(production)
    }

    // Where the two cursors start.
    ghost function FirstEnergy(): (at: nat)
      ensures at <= |energy|
    {
      FirstNotBefore(energy, tpInitial)
    }

    ghost function FirstProduction(): (at: nat)
      ensures at <= |production|
    {
      FirstNotBefore(production, tpInitial)
    }
  }

  datatype Message = Daily(time: int, value: real) | Weekly(time: int, value: real)

  // A boundary, the time of the ping that fires it, and which of its two
  // calculations fail.
  datatype Firing = Firing(boundary: int, tp: int, dailyFails: bool, weeklyFails: bool)

  // A ping in progress, and which of its two slots have finished.
  datatype Ping = Ping(tp: int, energyDone: bool, productionDone: bool)

  datatype State = State(
    energyAt: nat,
    productionAt: nat,
    energy: Column,
    production: Column,
    next: int,
    last: int,
    live: map<nat, Ping>,
    fired: seq<int>,
    published: seq<Message>)

  datatype Step =
    | Arrive(id: nat, tp: int)
    | EnergySlot(id: nat, db: Database)
    | ProductionSlot(id: nat, db: Database)
    | KpiBlock(id: nat, dailyFails: bool, weeklyFails: bool)

  ghost predicate Bounded(rec: Recording, s: State) {
    s.energyAt <= |rec.energy| && s.productionAt <= |rec.production|
  }

  // The KPI block runs only after both slots have been joined.
  ghost predicate Enabled(s: State, step: Step) {
    match step
    case Arrive(id, _) => id !in s.live
    case EnergySlot(id, _) => id in s.live && !s.live[id].energyDone
    case ProductionSlot(id, _) => id in s.live && !s.live[id].productionDone
    case KpiBlock(id, _, _) => id in s.live && s.live[id].energyDone && s.live[id].productionDone
  }

  ghost predicate Fires(s: State, step: Step)
    requires Enabled(s, step)
  {
    step.KpiBlock? && s.next <= s.live[step.id].tp
  }

  // A failed calculation publishes nothing.
  ghost function KpiMessages(energy: Column, production: Column, f: Firing): seq<Message> {
    (if f.dailyFails then [] else [Daily(f.tp, DailyKpi(energy, production, f.boundary))])
    + (if Weekday(f.boundary) != 0 || f.weeklyFails then []
       else [Weekly(f.tp, WeeklyKpi(energy, production, f.boundary))])
  }

  // The boundary advances even if both calculations fail.
  ghost function Fire(s: State, tp: int, dailyFails: bool, weeklyFails: bool): State {
    if tp < s.next then s else
      s.(published := s.published
           + KpiMessages(s.energy, s.production, Firing(s.next, tp, dailyFails, weeklyFails)),
         fired := s.fired + [s.next],
         last := s.next,
         next := s.next + DAY)
  }

  ghost function Next(rec: Recording, s: State, step: Step): (s': State)
    requires Bounded(rec, s) && Enabled(s, step)
    ensures Bounded(rec, s')
  {
    match step
    case Arrive(id, tp) => s.(live := s.live[id := Ping(tp, false, false)])
    case EnergySlot(id, db) =>
      var ping := s.live[id];
      var to := Advance(rec.energy, s.energyAt, ping.tp);
      var batch := rec.energy[s.energyAt..to];
      s.(energyAt := to,
         energy := Store(s.energy, batch, Lost(db, |batch|)),
         live := s.live[id := ping.(energyDone := true)])
    case ProductionSlot(id, db) =>
      var ping := s.live[id];
      var to := Advance(rec.production, s.productionAt, ping.tp);
      var batch := rec.production[s.productionAt..to];
      s.(productionAt := to,
         production := Store(s.production, batch, Lost(db, |batch|)),
         live := s.live[id := ping.(productionDone := true)])
    case KpiBlock(id, dailyFails, weeklyFails) =>
      Fire(s, s.live[id].tp, dailyFails, weeklyFails).(live := s.live - {id})
  }

  // Right after the command "start": cursors reset, tables cleaned, no ping.
  ghost function Init(rec: Recording): (s: State)
    ensures Bounded(rec, s)
  {
    State(rec.FirstEnergy(), rec.FirstProduction(), map[], map[],
          SixAm(rec.tpInitial), 0, map[], [], [])
  }

  ghost predicate ValidRun(rec: Recording, steps: seq<Step>)
    decreases |steps|, 0
  {
    steps != [] ==>
      var n := |steps| - 1;
      ValidRun(rec, steps[..n]) && Enabled(Run(rec, steps[..n]), steps[n])
  }

  ghost function Run(rec: Recording, steps: seq<Step>): (s: State)
    requires ValidRun(rec, steps)
    ensures Bounded(rec, s)
    decreases |steps|, 1
  {
    if steps == [] then Init(rec) else
      var n := |steps| - 1;
      Next(rec, Run(rec, steps[..n]), steps[n])
  }

  // ---------------------------------------------------------------------
  // What every step keeps
  // ---------------------------------------------------------------------

  // Everything up to time tp lies before the cursor.
  ghost predicate Past(data: seq<Sample>, at: nat, tp: int) {
    forall i | at <= i < |data| :: tp < data[i].tp
  }

  // The cursor never stops between samples of the same time.
  ghost predicate BetweenTimes(data: seq<Sample>, at: nat) {
    forall i, j | 0 <= i < at <= j < |data| :: data[i].tp < data[j].tp
  }

  ghost predicate SlotsPast(rec: Recording, s: State) {
    forall id | id in s.live ::
      && (s.live[id].energyDone ==> Past(rec.energy, s.energyAt, s.live[id].tp))
      && (s.live[id].productionDone ==> Past(rec.production, s.productionAt, s.live[id].tp))
  }

  ghost predicate CursorsSound(rec: Recording, s: State) {
    && rec.FirstEnergy() <= s.energyAt <= |rec.energy|
    && rec.FirstProduction() <= s.productionAt <= |rec.production|
    && BetweenTimes(rec.energy, s.energyAt)
    && BetweenTimes(rec.production, s.productionAt)
  }

  ghost predicate BoundariesSound(rec: Recording, s: State) {
    && s.next == SixAm(rec.tpInitial) + |s.fired| * DAY
    && (forall k | 0 <= k < |s.fired| :: s.fired[k] == SixAm(rec.tpInitial) + k * DAY)
    && s.last == if s.fired == [] then 0 else s.fired[|s.fired| - 1]
  }

  lemma AdvancePast(data: seq<Sample>, at: nat, tp: int)
    requires Sorted(data) && at <= |data|
    ensures Past(data, Advance(data, at, tp), tp)
    ensures BetweenTimes(data, at) ==> BetweenTimes(data, Advance(data, at, tp))
  {
    var to := Advance(data, at, tp);
    if BetweenTimes(data, at) {
      forall i, j | 0 <= i < to <= j < |data| ensures data[i].tp < data[j].tp {
        assert data[to].tp <= data[j].tp;
      }
    }
  }

  lemma FirstBetweenTimes(data: seq<Sample>, tp: int)
    requires Sorted(data)
    ensures BetweenTimes(data, FirstNotBefore(data, tp))
  {
  }

  lemma NextKeepsInvariant(rec: Recording, s: State, step: Step)
    requires rec.IsSorted() && Bounded(rec, s) && Enabled(s, step)
    requires SlotsPast(rec, s) && CursorsSound(rec, s) && BoundariesSound(rec, s)
    ensures SlotsPast(rec, Next(rec, s, step))
    ensures CursorsSound(rec, Next(rec, s, step))
    ensures BoundariesSound(rec, Next(rec, s, step))
  {
    hide Next, Enabled, SlotsPast, CursorsSound, BoundariesSound;
    NextKeepsSlotsPast(rec, s, step);
    NextKeepsCursors(rec, s, step);
    NextKeepsBoundaries(rec, s, step);
  }

  lemma NextKeepsSlotsPast(rec: Recording, s: State, step: Step)
    requires rec.IsSorted() && Bounded(rec, s) && Enabled(s, step) && SlotsPast(rec, s)
    ensures SlotsPast(rec, Next(rec, s, step))
  {
    hide KpiMessages, Store, Lost, Sorted, BetweenTimes;
    match step
    case Arrive(_, _) =>
    case EnergySlot(id, _) => AdvancePast(rec.energy, s.energyAt, s.live[id].tp);
    case ProductionSlot(id, _) => AdvancePast(rec.production, s.productionAt, s.live[id].tp);
    case KpiBlock(_, _, _) =>
  }

  lemma NextKeepsCursors(rec: Recording, s: State, step: Step)
    requires rec.IsSorted() && Bounded(rec, s) && Enabled(s, step) && CursorsSound(rec, s)
    ensures CursorsSound(rec, Next(rec, s, step))
  {
    hide KpiMessages, Store, Lost, Sorted, BetweenTimes, Past;
    match step
    case Arrive(_, _) =>
    case EnergySlot(id, _) => AdvancePast(rec.energy, s.energyAt, s.live[id].tp);
    case ProductionSlot(id, _) => AdvancePast(rec.production, s.productionAt, s.live[id].tp);
    case KpiBlock(_, _, _) =>
  }

  lemma NextKeepsBoundaries(rec: Recording, s: State, step: Step)
    requires Bounded(rec, s) && Enabled(s, step) && BoundariesSound(rec, s)
    ensures BoundariesSound(rec, Next(rec, s, step))
  {
    hide KpiMessages, Store, Lost, SixAm;
  }

  lemma {:induction false} RunKeepsInvariant(rec: Recording, steps: seq<Step>)
    requires rec.IsSorted() && ValidRun(rec, steps)
    ensures SlotsPast(rec, Run(rec, steps))
    ensures CursorsSound(rec, Run(rec, steps))
    ensures BoundariesSound(rec, Run(rec, steps))
  {
    if steps == [] {
      FirstBetweenTimes(rec.energy, rec.tpInitial);
      FirstBetweenTimes(rec.production, rec.tpInitial);
    } else {
      var n := |steps| - 1;
      RunKeepsInvariant(rec, steps[..n]);
      NextKeepsInvariant(rec, Run(rec, steps[..n]), steps[n]);
    }
  }

  // ---------------------------------------------------------------------
  // Readiness
  // ---------------------------------------------------------------------

  lemma OfferedUpTo(data: seq<Sample>, tp0: int, at: nat, tp: int)
    requires Sorted(data) && FirstNotBefore(data, tp0) <= at <= |data| && Past(data, at, tp)
    ensures Select(data, tp0, tp) <= data[FirstNotBefore(data, tp0)..at]
  {
    var first := FirstNotBefore(data, tp0);
    var to := Advance(data, first, tp);
    assert first < to ==> data[to - 1].tp <= tp;
    assert to <= at;
    SelectIsSlice(data, tp0, tp, first, to);
    assert data[first..at][..to - first] == data[first..to];
  }

  // Whenever the KPI of a boundary is computed, every recorded sample from the
  // start of the simulation to the boundary has been offered for insertion,
  // in every interleaving.
  lemma KpiReadiness(rec: Recording, steps: seq<Step>, step: Step)
    requires rec.IsSorted() && ValidRun(rec, steps)
    requires Enabled(Run(rec, steps), step) && Fires(Run(rec, steps), step)
    ensures var s := Run(rec, steps);
      && Past(rec.energy, s.energyAt, s.next)
      && Past(rec.production, s.productionAt, s.next)
      && rec.FirstEnergy() <= s.energyAt
      && rec.FirstProduction() <= s.productionAt
      && Select(rec.energy, rec.tpInitial, s.next) <= rec.energy[rec.FirstEnergy()..s.energyAt]
      && Select(rec.production, rec.tpInitial, s.next)
           <= rec.production[rec.FirstProduction()..s.productionAt]
  {
    var s := Run(rec, steps);
    RunKeepsInvariant(rec, steps);
    assert Past(rec.energy, s.energyAt, s.live[step.id].tp);
    OfferedUpTo(rec.energy, rec.tpInitial, s.energyAt, s.next);
    OfferedUpTo(rec.production, rec.tpInitial, s.productionAt, s.next);
  }

  // ---------------------------------------------------------------------
  // The trigger
  // ---------------------------------------------------------------------

  // Over any run the boundaries fired are B0, B0 + 24 h, B0 + 48 h, ...: none
  // is skipped, none repeated, each at 06:00 UTC.
  lemma FiredBoundaries(rec: Recording, steps: seq<Step>, k: nat)
    requires rec.IsSorted() && ValidRun(rec, steps) && k < |Run(rec, steps).fired|
    ensures Run(rec, steps).fired[k] == SixAm(rec.tpInitial) + k * DAY
    ensures Run(rec, steps).fired[k] % DAY == SIX_HOURS
    ensures Run(rec, steps).next == SixAm(rec.tpInitial) + |Run(rec, steps).fired| * DAY
  {
    hide Run, ValidRun, SlotsPast, CursorsSound, SixAm;
    RunKeepsInvariant(rec, steps);
    BoundaryIsSixAm(rec.tpInitial, k);
  }

  lemma BoundaryIsSixAm(tp0: int, k: int)
    ensures (SixAm(tp0) + k * DAY) % DAY == SIX_HOURS
    ensures (SixAm(tp0) + k * DAY) / DAY == tp0 / DAY + k
  {
    var b := SixAm(tp0) + k * DAY;
    assert b == (tp0 / DAY + k) * DAY + SIX_HOURS;
    QuotientAndRest(tp0 / DAY + k, SIX_HOURS);
  }

  lemma QuotientAndRest(q: int, r: int)
    requires 0 <= r < DAY
    ensures (q * DAY + r) / DAY == q && (q * DAY + r) % DAY == r
  {
  }

  lemma WeekdayOfBoundary(tp0: int, k: int)
    ensures Weekday(SixAm(tp0) + k * DAY) == (tp0 / DAY + 4 + k) % 7
  {
    BoundaryIsSixAm(tp0, k);
  }

  lemma OneInSeven(day: int, i: int)
    requires 0 <= i < 7
    ensures (day + i) % 7 == 0 <==> i == (-day) % 7
  {
  }

  // Exactly one of any seven consecutive boundaries is a Sunday.
  lemma OneSundayInSeven(rec: Recording, steps: seq<Step>, k: nat) returns (j: int)
    requires rec.IsSorted() && ValidRun(rec, steps) && k + 7 <= |Run(rec, steps).fired|
    ensures k <= j < k + 7
    ensures forall i | k <= i < k + 7 :: Weekday(Run(rec, steps).fired[i]) == 0 <==> i == j
  {
    hide Weekday, SixAm;
    var fired, day := Run(rec, steps).fired, rec.tpInitial / DAY + 4 + k;
    j := k + (-day) % 7;
    forall i | k <= i < k + 7 ensures Weekday(fired[i]) == 0 <==> i == j {
      FiredBoundaries(rec, steps, i);
      WeekdayOfBoundary(rec.tpInitial, i);
      assert rec.tpInitial / DAY + 4 + i == day + (i - k);
      OneInSeven(day, i - k);
    }
  }

  // Weekly windows of consecutive Sundays meet end to start, and each covers
  // exactly the seven daily windows between them.
  lemma WeeklyTiling(rec: Recording, steps: seq<Step>, k: nat)
    requires rec.IsSorted() && ValidRun(rec, steps) && k + 7 < |Run(rec, steps).fired|
    requires Weekday(Run(rec, steps).fired[k]) == 0
    ensures var fired := Run(rec, steps).fired;
      && Weekday(fired[k + 7]) == 0
      && fired[k + 7] - 7 * DAY == fired[k]
      && WeekOfDays(fired[k + 7]) == fired[k..k + 8]
  {
    hide Run, ValidRun, SlotsPast, CursorsSound;
    RunKeepsInvariant(rec, steps);
    TilingOfBoundaries(Run(rec, steps).fired, rec.tpInitial, k);
  }

  lemma TilingOfBoundaries(fired: seq<int>, tp0: int, k: nat)
    requires k + 7 < |fired| && Weekday(fired[k]) == 0
    requires forall i | 0 <= i < |fired| :: fired[i] == SixAm(tp0) + i * DAY
    ensures Weekday(fired[k + 7]) == 0
    ensures fired[k + 7] - 7 * DAY == fired[k]
    ensures WeekOfDays(fired[k + 7]) == fired[k..k + 8]
  {
    hide Weekday, SixAm;
    WeekdayOfBoundary(tp0, k);
    WeekdayOfBoundary(tp0, k + 7);
    EvenlySpaced(fired, SixAm(tp0), k);
    SevenLater(tp0 / DAY + 4 + k);
    assert fired[k] == SixAm(tp0) + k * DAY;
    assert fired[k + 7] == SixAm(tp0) + (k + 7) * DAY;
  }

  lemma SevenLater(day: int)
    ensures (day + 7) % 7 == day % 7
  {
  }

  lemma EvenlySpaced(fired: seq<int>, first: int, k: nat)
    requires k + 7 < |fired|
    requires forall i | 0 <= i < |fired| :: fired[i] == first + i * DAY
    ensures fired[k + 7] - 7 * DAY == fired[k]
    ensures WeekOfDays(fired[k + 7]) == fired[k..k + 8]
  {
    var slice := fired[k..k + 8];
    assert fired[k + 7] == first + (k + 7) * DAY;
    assert forall i | 0 <= i < 8 :: slice[i] == fired[k + i];
    assert forall i | 0 <= i < 8 :: slice[i] == first + (k + i) * DAY;
  }

  // What a KPI block of a ping at time tp publishes, from the rows in the tables
  // at that moment: if the boundary is reached, the KPI of the day before it and
  // on a Sunday then that of the week before it, except what fails.
  lemma PublishedByKpiBlock(rec: Recording, s: State, id: nat, dailyFails: bool, weeklyFails: bool)
    requires Bounded(rec, s) && Enabled(s, KpiBlock(id, dailyFails, weeklyFails))
    ensures var tp, boundary := s.live[id].tp, s.next;
            var daily := Daily(tp, Kpi(s.energy, s.production, boundary - 86400, boundary));
            var weekly := Weekly(tp, Kpi(s.energy, s.production, boundary - 7 * 86400, boundary));
            var published := Next(rec, s, KpiBlock(id, dailyFails, weeklyFails)).published;
      published == s.published
        + (if boundary <= tp && !dailyFails then [daily] else [])
        + (if boundary <= tp && !weeklyFails && Weekday(boundary) == 0 then [weekly] else [])
  {
    hide Kpi, Weekday;
  }

  // No other step publishes anything.
  lemma OthersPublishNothing(rec: Recording, s: State, step: Step)
    requires Bounded(rec, s) && Enabled(s, step) && !step.KpiBlock?
    ensures Next(rec, s, step).published == s.published
  {
  }

  // The next boundary after the KPI block of a ping at time tp.
  function Trigger(next: int, tp: int): int {
    if tp >= next then next + DAY else next
  }

  lemma TriggerIsKpiBlock(rec: Recording, s: State, step: Step)
    requires Bounded(rec, s) && Enabled(s, step)
    ensures Next(rec, s, step).next
         == if step.KpiBlock? then Trigger(s.next, s.live[step.id].tp) else s.next
  {
    hide KpiMessages;
  }

  // ---------------------------------------------------------------------
  // A ping that runs to completion on its own
  // ---------------------------------------------------------------------

  // The four steps of one ping, nothing in between.
  ghost function PingSteps(id: nat, tp: int, dbEnergy: Database, dbProduction: Database,
                           dailyFails: bool, weeklyFails: bool): seq<Step> {
    [Arrive(id, tp), EnergySlot(id, dbEnergy), ProductionSlot(id, dbProduction),
     KpiBlock(id, dailyFails, weeklyFails)]
  }

  ghost function WholePing(rec: Recording, s: State, id: nat, tp: int, dbEnergy: Database,
                           dbProduction: Database, dailyFails: bool, weeklyFails: bool): State
    requires Bounded(rec, s) && id !in s.live
  {
    var s1 := Next(rec, s, Arrive(id, tp));
    var s2 := Next(rec, s1, EnergySlot(id, dbEnergy));
    var s3 := Next(rec, s2, ProductionSlot(id, dbProduction));
    Next(rec, s3, KpiBlock(id, dailyFails, weeklyFails))
  }

  // The state once both slots of such a ping are joined.
  ghost function SlotsJoined(rec: Recording, s: State, tp: int, dbEnergy: Database, dbProduction: Database): State
    requires Bounded(rec, s)
  {
    var energyTo := Advance(rec.energy, s.energyAt, tp);
    var productionTo := Advance(rec.production, s.productionAt, tp);
    var energyBatch, productionBatch := rec.energy[s.energyAt..energyTo], rec.production[s.productionAt..productionTo];
    s.(energyAt := energyTo, energy := Store(s.energy, energyBatch, Lost(dbEnergy, |energyBatch|)),
       productionAt := productionTo,
       production := Store(s.production, productionBatch, Lost(dbProduction, |productionBatch|)))
  }

  lemma WholePingIsFire(rec: Recording, s: State, id: nat, tp: int, dbEnergy: Database,
                        dbProduction: Database, dailyFails: bool, weeklyFails: bool)
    requires Bounded(rec, s) && id !in s.live
    ensures WholePing(rec, s, id, tp, dbEnergy, dbProduction, dailyFails, weeklyFails)
         == Fire(SlotsJoined(rec, s, tp, dbEnergy, dbProduction), tp, dailyFails, weeklyFails)
  {
    hide KpiMessages, Store, Lost, Advance;
    assert s.live[id := Ping(tp, true, true)] - {id} == s.live;
  }

  lemma RunExtends(rec: Recording, steps: seq<Step>, step: Step)
    requires ValidRun(rec, steps) && Enabled(Run(rec, steps), step)
    ensures ValidRun(rec, steps + [step])
    ensures Run(rec, steps + [step]) == Next(rec, Run(rec, steps), step)
  {
    assert (steps + [step])[..|steps|] == steps;
  }

  // A whole ping after any run is again a run: what holds of every run of the
  // state machine holds of the handler's calls.
  lemma WholePingIsRun(rec: Recording, steps: seq<Step>, id: nat, tp: int, dbEnergy: Database,
                       dbProduction: Database, dailyFails: bool, weeklyFails: bool)
    requires ValidRun(rec, steps) && id !in Run(rec, steps).live
    ensures var longer := steps + PingSteps(id, tp, dbEnergy, dbProduction, dailyFails, weeklyFails);
      && ValidRun(rec, longer)
      && Run(rec, longer) == WholePing(rec, Run(rec, steps), id, tp, dbEnergy, dbProduction,
                                       dailyFails, weeklyFails)
      && Run(rec, longer).live == Run(rec, steps).live
      && Run(rec, longer).next == Trigger(Run(rec, steps).next, tp)
  {
    var s := Run(rec, steps);
    PingStepsEnabled(rec, s, id, tp, dbEnergy, dbProduction, dailyFails, weeklyFails);
    hide Next, Enabled, Run, ValidRun, Trigger, Bounded;
    var r1 := steps + [Arrive(id, tp)];
    RunExtends(rec, steps, Arrive(id, tp));
    var r2 := r1 + [EnergySlot(id, dbEnergy)];
    RunExtends(rec, r1, EnergySlot(id, dbEnergy));
    var r3 := r2 + [ProductionSlot(id, dbProduction)];
    RunExtends(rec, r2, ProductionSlot(id, dbProduction));
    RunExtends(rec, r3, KpiBlock(id, dailyFails, weeklyFails));
    assert steps + PingSteps(id, tp, dbEnergy, dbProduction, dailyFails, weeklyFails)
        == r3 + [KpiBlock(id, dailyFails, weeklyFails)];
  }

  lemma PingStepsEnabled(rec: Recording, s: State, id: nat, tp: int, dbEnergy: Database,
                         dbProduction: Database, dailyFails: bool, weeklyFails: bool)
    requires Bounded(rec, s) && id !in s.live
    ensures Enabled(s, Arrive(id, tp))
    ensures var s1 := Next(rec, s, Arrive(id, tp));
      && Enabled(s1, EnergySlot(id, dbEnergy))
      && (var s2 := Next(rec, s1, EnergySlot(id, dbEnergy));
        && Enabled(s2, ProductionSlot(id, dbProduction))
        && Enabled(Next(rec, s2, ProductionSlot(id, dbProduction)), KpiBlock(id, dailyFails, weeklyFails)))
    ensures var t := WholePing(rec, s, id, tp, dbEnergy, dbProduction, dailyFails, weeklyFails);
      t.live == s.live && t.next == Trigger(s.next, tp)
  {
    hide KpiMessages, Store, Lost;
  }
}
