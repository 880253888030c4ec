// The object of Application.cpp that owns both data acquisition objects and
// the KPI trigger. Its ping handler, run to completion, is four steps of the
// state machine in Simulation.
module Application {
  import opened Readings
  import opened EnergyIntegration
  import opened KpiWindows
  import opened Replay
  import opened Simulation

  // The first moment at which both recordings are at least two weeks old.
  function InitialTime(energy: seq<Sample>, production: seq<Sample>): (tp: int)
    requires energy != [] && production != []
    ensures energy[0].tp + 14 * DAY <= tp && production[0].tp + 14 * DAY <= tp
    ensures tp == energy[0].tp + 14 * DAY || tp == production[0].tp + 14 * DAY
  {
    (if energy[0].tp < production[0].tp then production[0].tp else energy[0].tp) + 14 * DAY
  }

  class Application {
    const daqEnergy: Daq
    const daqProduction: Daq
    const tpInitial: int
    var tpKpiLast: int
    var tpKpiNext: int
    // what the bus was given, and the boundaries handled, since the last reset
    var published: seq<Message>
    ghost var fired: seq<int>

    ghost predicate Valid()
      reads this, daqEnergy, daqProduction
    {
      && daqEnergy != daqProduction
      && daqEnergy.table != daqProduction.table
      && daqEnergy.Valid()
      && daqProduction.Valid()
    }

    ghost function Rec(): Recording {
      Recording(daqEnergy.data, daqProduction.data, tpInitial)
    }

    // The state between two pings, with none in progress.
    ghost function View(): (s: State)
      reads this, daqEnergy, daqProduction, daqEnergy.table, daqProduction.table
      requires Valid()
      ensures Bounded(Rec(), s)
    {
      State(daqEnergy.cursor, daqProduction.cursor, daqEnergy.table.rows, daqProduction.table.rows,
            tpKpiNext, tpKpiLast, map[], fired, published)
    }

    constructor (daqEnergy: Daq, daqProduction: Daq)
      requires daqEnergy != daqProduction && daqEnergy.table != daqProduction.table
      requires daqEnergy.Valid() && daqProduction.Valid()
      requires daqEnergy.data != [] && daqProduction.data != []
      ensures Valid() && this.daqEnergy == daqEnergy && this.daqProduction == daqProduction
      ensures tpInitial == InitialTime(daqEnergy.data, daqProduction.data)
    {
      this.daqEnergy := daqEnergy;
      this.daqProduction := daqProduction;
      tpInitial := InitialTime(daqEnergy.data, daqProduction.data);
      tpKpiLast, tpKpiNext := 0, 0;
      published, fired := [], [];
    }

    method ResetStatistics()
      requires Valid()
      modifies daqEnergy`stat, daqProduction`stat
      ensures Valid()
      ensures daqEnergy.stat == ZERO && daqProduction.stat == ZERO
    {
      daqEnergy.ResetStatistics();
      daqProduction.ResetStatistics();
    }

    // Throws, leaving the boundaries as they were, when a recording holds no
    // sample from the initial time on.
    method ResetIterators() returns (ok: bool)
      requires Valid()
      modifies this, daqEnergy, daqProduction
      ensures Valid()
      ensures daqEnergy.stat == ZERO && daqProduction.stat == ZERO
      ensures ok <==> Rec().FirstEnergy() < |daqEnergy.data| && Rec().FirstProduction() < |daqProduction.data|
      ensures ok ==> View() == Init(Rec()).(energy := daqEnergy.table.rows,
                                            production := daqProduction.table.rows)
      ensures !ok ==> tpKpiNext == old(tpKpiNext) && tpKpiLast == old(tpKpiLast)
                      && published == old(published) && fired == old(fired)
      ensures daqEnergy.cursor == Rec().FirstEnergy()
      ensures daqProduction.cursor == if Rec().FirstEnergy() < |daqEnergy.data|
                                      then Rec().FirstProduction() else old(daqProduction.cursor)
    {
      ResetStatistics();
      ok := daqEnergy.ResetIterator(tpInitial);
      if !ok {
        return;
      }
      ok := daqProduction.ResetIterator(tpInitial);
      if !ok {
        return;
      }
      tpKpiLast := 0;
      tpKpiNext := SixAm(tpInitial);
      published, fired := [], [];
    }

    method KpiSlot(tp: int, dailyFails: bool, weeklyFails: bool)
      requires Valid()
      modifies this
      ensures Valid()
      ensures View() == Fire(old(View()), tp, dailyFails, weeklyFails)
    {
      if tp >= tpKpiNext {
        var messages := CalculateMessages(tp, dailyFails, weeklyFails);
        hide KpiMessages;
        published := published + messages;
        fired := fired + [tpKpiNext];
        tpKpiLast := tpKpiNext;
        tpKpiNext := tpKpiNext + DAY;
      }
    }

    method CalculateMessages(tp: int, dailyFails: bool, weeklyFails: bool) returns (messages: seq<Message>)
      requires Valid()
      ensures messages == KpiMessages(daqEnergy.table.rows, daqProduction.table.rows,
                                      Firing(tpKpiNext, tp, dailyFails, weeklyFails))
    {
      hide Kpi, Weekday;
      messages := [];
      if !dailyFails {
        var kpi := CalculateKpi(tpKpiNext - DAY, tpKpiNext);
        messages := messages + [Daily(tp, kpi)];
      }
      if Weekday(tpKpiNext) == 0 {
        if !weeklyFails {
          var kpi := CalculateKpi(tpKpiNext - 7 * DAY, tpKpiNext);
          messages := messages + [Weekly(tp, kpi)];
        }
      }
    }

    method CalculateKpi(from: int, to: int) returns (kpi: real)
      requires from < to
      ensures kpi == Kpi(daqEnergy.table.rows, daqProduction.table.rows, from, to)
    {
      var rows := GetEnergy(daqEnergy.table.rows, from, to);
      var products := GetProduction(daqProduction.table.rows, from, to);
      kpi := Calculate(rows, products, from, to, daqEnergy.table.rows, daqProduction.table.rows);
    }

    // Both slots are joined before the trigger is tested.
    method OnTimePing(tp: int, dbEnergy: Database, dbProduction: Database,
                      dailyFails: bool, weeklyFails: bool)
      requires Valid()
      modifies this, daqEnergy, daqProduction, daqEnergy.table, daqProduction.table
      ensures Valid()
      ensures View() == WholePing(Rec(), old(View()), 0, tp, dbEnergy, dbProduction,
                                  dailyFails, weeklyFails)
    {
      var energyBatch := daqEnergy.PingSlot(tp, dbEnergy);
      assert Valid();
      var productionBatch := daqProduction.PingSlot(tp, dbProduction);
      assert Valid();
      assert View() == SlotsJoined(Rec(), old(View()), tp, dbEnergy, dbProduction);
      WholePingIsFire(Rec(), old(View()), 0, tp, dbEnergy, dbProduction, dailyFails, weeklyFails);
      hide WholePing, SlotsJoined, Fire;
      KpiSlot(tp, dailyFails, weeklyFails);
    }
  }
}
