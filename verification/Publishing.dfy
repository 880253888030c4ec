// What a whole run publishes, compared with the complete recording.
module Publishing {
  import opened Options
  import opened Readings
  import opened EnergyIntegration
  import opened KpiWindows
  import opened Replay
  import opened Simulation
  import opened EndToEnd

  ghost function FiringOf(s: State, step: Step): Firing
    requires Enabled(s, step) && Fires(s, step)
  {
    Firing(s.next, s.live[step.id].tp, step.dailyFails, step.weeklyFails)
  }

  // The boundaries a run fires, in order.
  ghost function Firings(rec: Recording, steps: seq<Step>): seq<Firing>
    requires ValidRun(rec, steps)
  {
    if steps == [] then [] else
      var n := |steps| - 1;
      var s := Run(rec, steps[..n]);
      Firings(rec, steps[..n]) + if Fires(s, steps[n]) then [FiringOf(s, steps[n])] else []
  }

  // The messages of these firings computed from the complete recording.
  ghost function Announced(rec: Recording, firings: seq<Firing>): seq<Message> {
    if firings == [] then [] else
      var n := |firings| - 1;
      Announced(rec, firings[..n]) + KpiMessages(FullEnergy(rec), FullProduction(rec), firings[n])
  }

  // Each KPI that is calculated at this firing is that of the complete recording.
  ghost predicate Settled(rec: Recording, s: State, f: Firing)
    requires AgreeUpTo(s.energy, FullEnergy(rec), s.next)
  {
    && (f.dailyFails || SameDaily(s, Completed(rec, s)))
    && (Weekday(f.boundary) != 0 || f.weeklyFails || SameWeekly(s, Completed(rec, s)))
  }

  ghost predicate AllSettled(rec: Recording, steps: seq<Step>)
    requires rec.IsSorted() && ValidRun(rec, steps) && NoFailures(steps)
  {
    steps != [] ==>
      var n := |steps| - 1;
      var s := Run(rec, steps[..n]);
      && AllSettled(rec, steps[..n])
      && (Fires(s, steps[n]) ==>
            (KpiOfCompleteRecordingIff(rec, steps[..n], steps[n]);
             Settled(rec, s, FiringOf(s, steps[n]))))
  }

  lemma SettledIff(rec: Recording, s: State, f: Firing)
    requires KpisAgreeIff(s, Completed(rec, s)) && f.boundary == s.next
    ensures KpiMessages(s.energy, s.production, f) == KpiMessages(FullEnergy(rec), FullProduction(rec), f)
       <==> Settled(rec, s, f)
  {
    hide SameDaily, SameWeekly, AgreeUpTo, DailyKpi, WeeklyKpi, FullEnergy, FullProduction, Weekday;
    SameMessagesIff(s.energy, s.production, FullEnergy(rec), FullProduction(rec), f);
  }

  lemma SameMessagesIff(c: Column, p: Column, d: Column, q: Column, f: Firing)
    ensures |KpiMessages(c, p, f)| == |KpiMessages(d, q, f)|
    ensures KpiMessages(c, p, f) == KpiMessages(d, q, f)
       <==> && (f.dailyFails || DailyKpi(c, p, f.boundary) == DailyKpi(d, q, f.boundary))
            && (Weekday(f.boundary) != 0 || f.weeklyFails
                || WeeklyKpi(c, p, f.boundary) == WeeklyKpi(d, q, f.boundary))
  {
    hide DailyKpi, WeeklyKpi, Weekday;
    var m, m' := KpiMessages(c, p, f), KpiMessages(d, q, f);
    if !f.dailyFails {
      assert m[0] == Daily(f.tp, DailyKpi(c, p, f.boundary));
      assert m'[0] == Daily(f.tp, DailyKpi(d, q, f.boundary));
    }
    if Weekday(f.boundary) == 0 && !f.weeklyFails {
      assert m[|m| - 1] == Weekly(f.tp, WeeklyKpi(c, p, f.boundary));
      assert m'[|m| - 1] == Weekly(f.tp, WeeklyKpi(d, q, f.boundary));
    }
  }

  lemma SameEndsIff(a: seq<Message>, m: seq<Message>, b: seq<Message>, m': seq<Message>)
    requires |m| == |m'|
    ensures a + m == b + m' <==> a == b && m == m'
  {
    if a + m == b + m' {
      assert a == (a + m)[..|a|] && b == (b + m')[..|b|];
      assert m == (a + m)[|a|..] && m' == (b + m')[|b|..];
    }
  }

  // Each fired boundary is announced once, in order.
  lemma {:induction false} FiringsAreFired(rec: Recording, steps: seq<Step>)
    requires ValidRun(rec, steps)
    ensures |Firings(rec, steps)| == |Run(rec, steps).fired|
    ensures forall k | 0 <= k < |Run(rec, steps).fired| ::
      Firings(rec, steps)[k].boundary == Run(rec, steps).fired[k]
  {
    if steps != [] {
      var n := |steps| - 1;
      FiringsAreFired(rec, steps[..n]);
      StepFires(rec, Run(rec, steps[..n]), steps[n]);
      hide Next, Fires, FiringOf, Enabled;
    }
  }

  lemma StepFires(rec: Recording, s: State, step: Step)
    requires Bounded(rec, s) && Enabled(s, step)
    ensures var t := Next(rec, s, step);
      if Fires(s, step)
      then t.fired == s.fired + [s.next]
        && t.published == s.published + KpiMessages(s.energy, s.production, FiringOf(s, step))
      else t.fired == s.fired && t.published == s.published
  {
    hide KpiMessages;
  }

  lemma AnnouncedOne(rec: Recording, firings: seq<Firing>, f: Firing)
    ensures Announced(rec, firings + [f])
         == Announced(rec, firings) + KpiMessages(FullEnergy(rec), FullProduction(rec), f)
  {
    assert (firings + [f])[..|firings|] == firings;
  }

  // A run whose inserts do not fail has published, for each boundary it fired,
  // once and in order, the KPIs of the complete recording, exactly when every
  // one of its firings was settled.
  lemma {:induction false} PublishesCompleteIff(rec: Recording, steps: seq<Step>)
    requires rec.IsSorted() && ValidRun(rec, steps) && NoFailures(steps)
    ensures |Run(rec, steps).published| == |Announced(rec, Firings(rec, steps))|
    ensures Run(rec, steps).published == Announced(rec, Firings(rec, steps)) <==> AllSettled(rec, steps)
  {
    if steps == [] {
    } else {
      hide *;
      var n := |steps| - 1;
      PrefixOfReliable(rec, steps);
      PublishesCompleteIff(rec, steps[..n]);
      var settled := LastStepPublishes(rec, steps);
    }
  }

  lemma PrefixOfReliable(rec: Recording, steps: seq<Step>)
    requires ValidRun(rec, steps) && NoFailures(steps) && steps != []
    ensures var n := |steps| - 1;
      ValidRun(rec, steps[..n]) && NoFailures(steps[..n]) && Enabled(Run(rec, steps[..n]), steps[n])
  {
  }

  // Whether the last step, if it fires, is settled decides both sides.
  lemma LastStepPublishes(rec: Recording, steps: seq<Step>) returns (settled: bool)
    requires rec.IsSorted() && ValidRun(rec, steps) && NoFailures(steps) && steps != []
    ensures var n := |steps| - 1;
      && ValidRun(rec, steps[..n]) && NoFailures(steps[..n])
      && |Run(rec, steps).published| - |Run(rec, steps[..n]).published|
         == |Announced(rec, Firings(rec, steps))| - |Announced(rec, Firings(rec, steps[..n]))|
      && (Run(rec, steps).published == Announced(rec, Firings(rec, steps))
          <==> Run(rec, steps[..n]).published == Announced(rec, Firings(rec, steps[..n])) && settled)
      && (AllSettled(rec, steps) <==> AllSettled(rec, steps[..n]) && settled)
  {
    var n := |steps| - 1;
    PrefixOfReliable(rec, steps);
    var before, step := steps[..n], steps[n];
    var s := Run(rec, before);
    assert Run(rec, steps) == Next(rec, s, step);
    StepFires(rec, s, step);
    if Fires(s, step) {
      assert Firings(rec, steps) == Firings(rec, before) + [FiringOf(s, step)];
      FiringPublishesIff(rec, before, step);
      settled := Settled(rec, s, FiringOf(s, step));
      assert AllSettled(rec, steps) <==> AllSettled(rec, before) && settled;
    } else {
      assert Firings(rec, steps) == Firings(rec, before);
      settled := true;
      assert AllSettled(rec, steps) <==> AllSettled(rec, before);
    }
    hide *;
  }

  lemma FiringPublishesIff(rec: Recording, steps: seq<Step>, step: Step)
    requires IsFiring(rec, steps, step)
    ensures var s := Run(rec, steps);
            var f := FiringOf(s, step);
            var published := s.published + KpiMessages(s.energy, s.production, f);
            var announced := Announced(rec, Firings(rec, steps) + [f]);
      && |published| - |s.published| == |announced| - |Announced(rec, Firings(rec, steps))|
      && AgreeUpTo(s.energy, FullEnergy(rec), s.next)
      && (published == announced
          <==> s.published == Announced(rec, Firings(rec, steps)) && Settled(rec, s, f))
  {
    var s := Run(rec, steps);
    var f := FiringOf(s, step);
    var firings := Firings(rec, steps);
    KpiOfCompleteRecordingIff(rec, steps, step);
    hide *;
    MessagesOfFiring(rec, s, f, firings);
  }

  lemma MessagesOfFiring(rec: Recording, s: State, f: Firing, firings: seq<Firing>)
    requires KpisAgreeIff(s, Completed(rec, s)) && f.boundary == s.next
    ensures var published := s.published + KpiMessages(s.energy, s.production, f);
            var announced := Announced(rec, firings + [f]);
      && |published| - |s.published| == |announced| - |Announced(rec, firings)|
      && AgreeUpTo(s.energy, FullEnergy(rec), s.next)
      && (published == announced <==> s.published == Announced(rec, firings) && Settled(rec, s, f))
  {
    hide KpiMessages, Announced, Settled, FullEnergy, FullProduction, SameDaily, SameWeekly, DailyKpi, WeeklyKpi;
    hide AgreeUpTo;
    AnnouncedOne(rec, firings, f);
    SettledIff(rec, s, f);
    SameMessagesIff(s.energy, s.production, FullEnergy(rec), FullProduction(rec), f);
    SameEndsIff(s.published, KpiMessages(s.energy, s.production, f),
                Announced(rec, firings), KpiMessages(FullEnergy(rec), FullProduction(rec), f));
  }

  // ---------------------------------------------------------------------
  // A run over a Sunday
  // ---------------------------------------------------------------------

  // t comes after a whole ping at time tp, whose inserts succeeded and which
  // reached the boundary.
  ghost predicate Pinged(rec: Recording, s: State, tp: int, t: State)
    requires Bounded(rec, s)
  {
    && t.live == s.live && TablesLoaded(rec, t)
    && t.energyAt == Advance(rec.energy, s.energyAt, tp)
    && t.productionAt == Advance(rec.production, s.productionAt, tp)
    && t.next == s.next + DAY
    && t.published == s.published + [Daily(tp, DailyKpi(t.energy, t.production, s.next))]
         + (if Weekday(s.next) == 0 then [Weekly(tp, WeeklyKpi(t.energy, t.production, s.next))] else [])
  }

  lemma ReliablePing(rec: Recording, s: State, tp: int, db: Database)
    requires Bounded(rec, s) && 0 !in s.live
    requires TablesLoaded(rec, s) && Reliable(db) && s.next <= tp
    ensures Pinged(rec, s, tp, WholePing(rec, s, 0, tp, db, db, false, false))
  {
    hide DailyKpi, WeeklyKpi, Weekday, Store, Lost, Loaded, Reliable, WholePing;
    WholePingIsFire(rec, s, 0, tp, db, db, false, false);
    var t := SlotsJoined(rec, s, tp, db, db);
    StoredWhole(rec.energy, rec.FirstEnergy(), s.energyAt, t.energyAt, db);
    StoredWhole(rec.production, rec.FirstProduction(), s.productionAt, t.productionAt, db);
  }

  const SATURDAY: int := 16 * DAY

  // Two daily boundaries, at 06:00 on a Saturday and on the Sunday after it.
  const FIRST: int := SATURDAY + 6 * HOUR
  const SECOND: int := SATURDAY + 30 * HOUR

  function WeekendRecording(): Recording {
    Recording([Sample(2 * DAY, Some(0.0)), Sample(SATURDAY, Some(100.0)), Sample(FIRST, Some(110.0)),
               Sample(SECOND, Some(140.0))],
              [Sample(2 * DAY, Some(0.0)), Sample(SATURDAY + 3 * HOUR, Some(10.0)),
               Sample(SATURDAY + 24 * HOUR, Some(10.0))],
              SATURDAY)
  }

  lemma WeekendEnergy()
    ensures var energy := WeekendRecording().energy;
      && Sorted(energy) && WeekendRecording().FirstEnergy() == 1
      && Advance(energy, 1, FIRST) == 3 && Advance(energy, 3, SECOND) == 4
      && Loaded(energy, 1, 3) == map[SATURDAY := Some(100.0), FIRST := Some(110.0)]
      && Loaded(energy, 1, 4) == map[SATURDAY := Some(100.0), FIRST := Some(110.0), SECOND := Some(140.0)]
  {
    var energy := WeekendRecording().energy;
    hide Advance, FirstNotBefore;
    FirstIs(energy, SATURDAY, 1);
    CursorIs(energy, 1, FIRST, 3);
    CursorIs(energy, 3, SECOND, 4);
    var e := energy[1..4];
    assert e[..0] == [] && e[..1] == [energy[1]] && e[..2][..1] == e[..1] && e[..3] == e && energy[1..3] == e[..2];
    assert Store(map[], e[..1], {}) == map[SATURDAY := Some(100.0)];
  }

  lemma WeekendProduction()
    ensures var production := WeekendRecording().production;
      && Sorted(production) && WeekendRecording().FirstProduction() == 1
      && Advance(production, 1, FIRST) == 2 && Advance(production, 2, SECOND) == 3
      && Loaded(production, 1, 2) == map[SATURDAY + 3 * HOUR := Some(10.0)]
      && Loaded(production, 1, 3) == map[SATURDAY + 3 * HOUR := Some(10.0), SATURDAY + 24 * HOUR := Some(10.0)]
  {
    var production := WeekendRecording().production;
    hide Advance, FirstNotBefore;
    FirstIs(production, SATURDAY, 1);
    CursorIs(production, 1, FIRST, 2);
    CursorIs(production, 2, SECOND, 3);
    var p := production[1..3];
    assert p[..0] == [] && p[..1] == [production[1]] && p[..2] == p && production[1..2] == p[..1];
  }

  lemma KpiIs(energy: Column, production: Column, rs: seq<Reading>, ps: seq<Reading>, from: int, to: int, kpi: real)
    requires from < to && Lists(rs, energy, NotNull(energy)) && IsWindow(rs, from, to)
    requires Ordered(ps) && forall r :: r in ps <==> r in GetProduction(production, from, to)
    requires ps != [] && Total(ps) > 0.0 && kpi <= 30.0 && WindowEnergy(rs, from, to) == kpi * Total(ps)
    ensures Kpi(energy, production, from, to) == kpi
  {
    hide *;
    TableIsWindow(energy, rs, from, to);
    ProductsAre(production, from, to, ps);
    Undo(kpi, Total(ps));
    KpiOfRows(energy, production, from, to, rs, ps);
  }

  lemma ProductsAre(production: Column, from: int, to: int, ps: seq<Reading>)
    requires Ordered(ps) && forall r :: r in ps <==> r in GetProduction(production, from, to)
    ensures GetProduction(production, from, to) == ps
  {
    OrderedUnique(ps, GetProduction(production, from, to));
  }

  lemma KpiOfRows(energy: Column, production: Column, from: int, to: int, rs: seq<Reading>, ps: seq<Reading>)
    requires from < to && GetEnergy(energy, from, to) == rs && GetProduction(production, from, to) == ps
    requires IsWindow(rs, from, to) && ps != [] && Total(ps) > 0.0
    requires WindowEnergy(rs, from, to) / Total(ps) <= 30.0
    ensures Kpi(energy, production, from, to) == WindowEnergy(rs, from, to) / Total(ps)
  {
    hide WindowEnergy, Total, GetEnergy, GetProduction, Ordered;
  }

  // Rows that never fall, over a window that begins at or before the second of
  // them and ends at the last.
  lemma RisingRows(rs: seq<Reading>, from: int, to: int, k: nat)
    requires IsWindow(rs, from, to) && NeverFalls(rs) && rs[|rs| - 1].t == to
    requires k < |rs| && (rs[k].t == from || (k == 0 && from <= rs[0].t))
    ensures WindowEnergy(rs, from, to) == rs[|rs| - 1].v - rs[k].v
  {
    hide WindowEnergy, Unwrapped;
    NeverFallsClosed(rs, from, to);
    UnwrappedPassesThrough(rs, |rs| - 1);
    UnwrappedNeverFalling(rs, |rs| - 1);
    UnwrappedNeverFalling(rs, k);
    if rs[k].t == from {
      UnwrappedPassesThrough(rs, k);
    } else {
      UnwrappedAtStart(rs, from);
    }
  }

  lemma SaturdayListing(energy: Column, production: Column, rs: seq<Reading>, ps: seq<Reading>)
    requires energy == map[SATURDAY := Some(100.0), FIRST := Some(110.0)]
    requires production == map[SATURDAY + 3 * HOUR := Some(10.0)]
    requires rs == [Reading(SATURDAY, 100.0), Reading(FIRST, 110.0)] && ps == [Reading(SATURDAY + 3 * HOUR, 10.0)]
    ensures Lists(rs, energy, NotNull(energy))
    ensures forall r :: r in ps <==> r in GetProduction(production, FIRST - DAY, FIRST)
  {
    hide GetProduction;
    forall r ensures r in ps <==> r in GetProduction(production, FIRST - DAY, FIRST) {
      ProductionRows(production, FIRST - DAY, FIRST, r);
    }
  }

  lemma SaturdayKpi(energy: Column, production: Column)
    requires energy == map[SATURDAY := Some(100.0), FIRST := Some(110.0)]
    requires production == map[SATURDAY + 3 * HOUR := Some(10.0)]
    ensures DailyKpi(energy, production, FIRST) == 1.0
  {
    hide WindowEnergy, Total, Kpi, Lists, GetProduction;
    var rs := [Reading(SATURDAY, 100.0), Reading(FIRST, 110.0)];
    var ps := [Reading(SATURDAY + 3 * HOUR, 10.0)];
    SaturdayListing(energy, production, rs, ps);
    RisingRows(rs, FIRST - DAY, FIRST, 0);
    TotalIsSum([], ps[0]);
    assert [] + [ps[0]] == ps;
    KpiIs(energy, production, rs, ps, FIRST - DAY, FIRST, 1.0);
  }

  function WeekendRows(): seq<Reading> {
    [Reading(SATURDAY, 100.0), Reading(FIRST, 110.0), Reading(SECOND, 140.0)]
  }

  function WeekendProducts(): seq<Reading> {
    [Reading(SATURDAY + 3 * HOUR, 10.0), Reading(SATURDAY + 24 * HOUR, 10.0)]
  }

  // All readings of the two days.
  ghost predicate WeekendTables(energy: Column, production: Column) {
    && energy == map[SATURDAY := Some(100.0), FIRST := Some(110.0), SECOND := Some(140.0)]
    && production == map[SATURDAY + 3 * HOUR := Some(10.0), SATURDAY + 24 * HOUR := Some(10.0)]
  }

  lemma WeekendListing(energy: Column, production: Column)
    requires WeekendTables(energy, production)
    ensures Lists(WeekendRows(), energy, NotNull(energy))
    ensures forall r :: r in WeekendProducts() <==> r in GetProduction(production, SECOND - 7 * DAY, SECOND)
    ensures forall r :: r in WeekendProducts()[1..] <==> r in GetProduction(production, FIRST, SECOND)
  {
    hide GetProduction;
    assert WeekendProducts()[1..] == [Reading(SATURDAY + 24 * HOUR, 10.0)];
    forall r
      ensures r in WeekendProducts() <==> r in GetProduction(production, SECOND - 7 * DAY, SECOND)
      ensures r in WeekendProducts()[1..] <==> r in GetProduction(production, FIRST, SECOND)
    {
      ProductionRows(production, SECOND - 7 * DAY, SECOND, r);
      ProductionRows(production, FIRST, SECOND, r);
    }
  }

  lemma WeekendSums()
    ensures Ordered(WeekendRows()) && Ordered(WeekendProducts()) && NeverFalls(WeekendRows())
    ensures Total(WeekendProducts()) == 20.0 && Total(WeekendProducts()[1..]) == 10.0
  {
    var ps := WeekendProducts();
    TotalIsSum([], ps[0]);
    TotalIsSum([ps[0]], ps[1]);
    TotalIsSum([], ps[1]);
    assert [] + [ps[0]] == [ps[0]] && [ps[0]] + [ps[1]] == ps && [] + [ps[1]] == ps[1..];
  }

  lemma SundayKpi(energy: Column, production: Column)
    requires WeekendTables(energy, production)
    ensures DailyKpi(energy, production, SECOND) == 3.0
  {
    hide WindowEnergy, Total, Kpi, Lists, GetProduction, NeverFalls, WeekendTables;
    WeekendListing(energy, production);
    WeekendSums();
    RisingRows(WeekendRows(), FIRST, SECOND, 1);
    KpiIs(energy, production, WeekendRows(), WeekendProducts()[1..], FIRST, SECOND, 3.0);
  }

  lemma WeekKpi(energy: Column, production: Column)
    requires WeekendTables(energy, production)
    ensures WeeklyKpi(energy, production, SECOND) == 2.0
  {
    hide WindowEnergy, Total, Kpi, Lists, GetProduction, NeverFalls, WeekendTables;
    WeekendListing(energy, production);
    WeekendSums();
    RisingRows(WeekendRows(), SECOND - 7 * DAY, SECOND, 0);
    KpiIs(energy, production, WeekendRows(), WeekendProducts(), SECOND - 7 * DAY, SECOND, 2.0);
  }

  // Between two pings.
  ghost predicate Weekend(s: State, energyAt: nat, productionAt: nat, next: int, published: seq<Message>) {
    && s.live == map[] && TablesLoaded(WeekendRecording(), s)
    && s.energyAt == energyAt && s.productionAt == productionAt
    && s.next == next && s.published == published
  }

  lemma WeekendBegins()
    ensures Weekend(Init(WeekendRecording()), 1, 1, FIRST, [])
  {
    var rec := WeekendRecording();
    WeekendEnergy();
    WeekendProduction();
    assert SixAm(rec.tpInitial) == FIRST;
    hide Advance, FirstNotBefore, Sorted;
    assert rec.energy[1..1] == [] && rec.production[1..1] == [];
  }

  lemma SaturdayPing(s: State, t: State)
    requires Weekend(s, 1, 1, FIRST, []) && Pinged(WeekendRecording(), s, FIRST, t)
    ensures Weekend(t, 3, 2, SECOND, [Daily(FIRST, 1.0)])
  {
    hide WeekendRecording, Loaded, Advance, FirstNotBefore, DailyKpi, WeeklyKpi, Sorted;
    WeekendEnergy();
    WeekendProduction();
    assert Weekday(FIRST) == 6;
    hide Weekday;
    SaturdayKpi(t.energy, t.production);
  }

  lemma SundayPing(s: State, t: State)
    requires Weekend(s, 3, 2, SECOND, [Daily(FIRST, 1.0)]) && Pinged(WeekendRecording(), s, SECOND, t)
    ensures Weekend(t, 4, 3, SECOND + DAY, [Daily(FIRST, 1.0), Daily(SECOND, 3.0), Weekly(SECOND, 2.0)])
  {
    hide WeekendRecording, Loaded, Advance, FirstNotBefore, DailyKpi, WeeklyKpi, Sorted;
    WeekendEnergy();
    WeekendProduction();
    assert Weekday(SECOND) == 0;
    hide Weekday;
    SundayKpi(t.energy, t.production);
    WeekKpi(t.energy, t.production);
  }

  // Two pings, at the two boundaries: the Saturday publishes its KPI, the Sunday
  // its own and then that of the week.
  lemma WeekendRun(db: Database) returns (steps: seq<Step>)
    requires Reliable(db)
    ensures ValidRun(WeekendRecording(), steps)
    ensures Run(WeekendRecording(), steps).published
         == [Daily(FIRST, 1.0), Daily(SECOND, 3.0), Weekly(SECOND, 2.0)]
  {
    var rec := WeekendRecording();
    WeekendBegins();
    assert ValidRun(rec, []) && Run(rec, []) == Init(rec);
    hide Run, ValidRun, WeekendRecording, Reliable, Pinged, WholePing, TablesLoaded, PingSteps, Init;
    ReliablePing(rec, Init(rec), FIRST, db);
    WholePingIsRun(rec, [], 0, FIRST, db, db, false, false);
    var first := [] + PingSteps(0, FIRST, db, db, false, false);
    SaturdayPing(Init(rec), Run(rec, first));
    ReliablePing(rec, Run(rec, first), SECOND, db);
    WholePingIsRun(rec, first, 0, SECOND, db, db, false, false);
    steps := first + PingSteps(0, SECOND, db, db, false, false);
    SundayPing(Run(rec, first), Run(rec, steps));
  }
}
