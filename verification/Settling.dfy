// A KPI that is computed before the first reading after its window is loaded
// and again after it: when the two are the same.
module Settling {
  import opened Readings
  import opened EnergyIntegration
  import opened KpiWindows

  // ---------------------------------------------------------------------
  // The rows
  // ---------------------------------------------------------------------

  // The later query returns one row more, and that row lies after the window.
  lemma NextRow(c: Column, d: Column, from: int, to: int)
    requires from <= to && AgreeUpTo(c, d, to)
    requires !HasReadingAfter(c, to) && HasReadingAfter(d, to)
    ensures GetEnergy(d, from, to) == GetEnergy(c, from, to) + [NextReading(d, to)]
  {
    var rows, next := GetEnergy(c, from, to), NextReading(d, to);
    RowsUpTo(c, from, to);
    assert Ordered(rows + [next]);
    forall r ensures r in rows + [next] <==> r in GetEnergy(d, from, to) {
      SelectedLater(c, d, from, to, r.t);
    }
    OrderedUnique(rows + [next], GetEnergy(d, from, to));
  }

  lemma RowsUpTo(c: Column, from: int, to: int)
    requires !HasReadingAfter(c, to)
    ensures forall i | 0 <= i < |GetEnergy(c, from, to)| :: GetEnergy(c, from, to)[i].t <= to
  {
    var rows := GetEnergy(c, from, to);
    forall i | 0 <= i < |rows| ensures rows[i].t <= to {
      assert rows[i] in rows;
      assert rows[i].t in NotNull(c);
    }
  }

  lemma SelectedLater(c: Column, d: Column, from: int, to: int, t: int)
    requires from <= to && AgreeUpTo(c, d, to)
    requires !HasReadingAfter(c, to) && HasReadingAfter(d, to)
    ensures t in EnergySelection(d, from, to) <==> t in EnergySelection(c, from, to) || t == NextReading(d, to).t
  {
    assert forall u | u <= to :: u in NotNull(c) <==> u in NotNull(d);
    assert t in FirstAfter(d, to) <==> t == NextReading(d, to).t;
  }

  // ---------------------------------------------------------------------
  // The energy
  // ---------------------------------------------------------------------

  // What the next reading b adds to an energy that ended with reading a.
  function Added(a: Reading, b: Reading, to: int): real
    requires a.t < b.t
  {
    if IsReset(a, b) then b.v else Share(a, b, to)
  }

  // It adds nothing: after a reset the meter still shows zero; otherwise a is
  // at the boundary itself, or the meter stands still.
  predicate Idle(a: Reading, b: Reading, to: int) {
    if IsReset(a, b) then b.v == 0.0 else a.t == to || a.v == b.v
  }

  // The energy of a window with these two rows only.
  function SingleEnergy(a: Reading, b: Reading, from: int): real
    requires a.t < b.t
  {
    if a.t < from && !IsReset(a, b) then Gain(a, b) - Share(a, b, from) else Gain(a, b)
  }

  lemma AddedZeroIff(a: Reading, b: Reading, to: int)
    requires a.t <= to < b.t
    ensures Added(a, b, to) == 0.0 <==> Idle(a, b, to)
  {
    hide Share;
    ShareZeroIff(a, b, to);
    ShareAtStart(a, b);
  }

  lemma {:induction false} UnwrappedPrefix(rows: seq<Reading>, more: seq<Reading>, k: nat)
    requires k < |rows|
    ensures UnwrappedAt(rows + more, k) == UnwrappedAt(rows, k)
  {
    hide Gain;
    if k > 0 {
      UnwrappedPrefix(rows, more, k - 1);
    }
  }

  lemma EnergyOfLonger(rows: seq<Reading>, b: Reading, from: int, to: int)
    requires IsWindow(rows, from, to) && rows[|rows| - 1].t <= to < b.t
    ensures IsWindow(rows + [b], from, to)
    ensures WindowEnergy(rows + [b], from, to) == WindowEnergy(rows, from, to) + Added(rows[|rows| - 1], b, to)
  {
    hide WindowEnergy, Share, Gain, IsReset;
    var longer, n := rows + [b], |rows|;
    assert longer[n - 1] == rows[n - 1] && longer[n] == b;
    assert longer[0] == rows[0] && longer[1] == rows[1];
    AccumulatedAll(rows, from, to);
    AccumulatedAll(longer, from, to);
    UnwrappedPrefix(rows, [b], n - 1);
    GainOfReset(rows[n - 1], b);
  }

  lemma GainOfReset(a: Reading, b: Reading)
    ensures IsReset(a, b) ==> Gain(a, b) == b.v
  {
  }

  lemma EnergyOfTwo(a: Reading, b: Reading, from: int, to: int)
    requires IsWindow([a, b], from, to)
    ensures WindowEnergy([a, b], from, to) == SingleEnergy(a, b, from)
  {
    hide WindowEnergy, Share, Gain, IsReset;
    AccumulatedAll([a, b], from, to);
    assert UnwrappedAt([a, b], 0) == 0.0;
    assert UnwrappedAt([a, b], 1) == Gain(a, b);
  }

  // Loading the next reading raises or lowers the energy by exactly this.
  lemma EnergyWithNext(c: Column, d: Column, from: int, to: int)
    requires from < to && AgreeUpTo(c, d, to)
    requires !HasReadingAfter(c, to) && HasReadingAfter(d, to)
    requires Enough(c, from, to)
    ensures var rows, b := GetEnergy(c, from, to), NextReading(d, to);
            var a := rows[|rows| - 1];
      && a.t <= to < b.t && Enough(d, from, to)
      && Energy(d, from, to) == Energy(c, from, to) + Added(a, b, to)
  {
    hide WindowEnergy, Added, GetEnergy, Ordered, Lists, HasReadingAfter, AgreeUpTo;
    NextRow(c, d, from, to);
    RowsUpTo(c, from, to);
    GetEnergyIsWindow(c, from, to);
    EnergyOfLonger(GetEnergy(c, from, to), NextReading(d, to), from, to);
  }

  // ---------------------------------------------------------------------
  // The KPI
  // ---------------------------------------------------------------------

  // The KPI computed without the next reading is the one computed with it:
  // there is nothing to rate, or the reading adds nothing, or both are rejected.
  ghost predicate NextIsIdle(c: Column, d: Column, p: Column, from: int, to: int)
    requires from < to && AgreeUpTo(c, d, to)
    requires !HasReadingAfter(c, to) && HasReadingAfter(d, to)
  {
    var rows, products, b := GetEnergy(c, from, to), GetProduction(p, from, to), NextReading(d, to);
    || rows == []
    || products == []
    || Total(products) <= 0.0
    || (RowsUpTo(c, from, to);
        var a := rows[|rows| - 1];
        if |rows| == 1 then Rejected(SingleEnergy(a, b, from), Total(products))
        else
          || Idle(a, b, to)
          || (&& Rejected(Energy(c, from, to), Total(products))
              && Rejected(Energy(c, from, to) + Added(a, b, to), Total(products))))
  }

  // For any two tables that agree up to the end of the window.
  ghost predicate SameKpi(c: Column, d: Column, p: Column, from: int, to: int)
    requires from < to && AgreeUpTo(c, d, to)
  {
    if HasReadingAfter(c, to) == HasReadingAfter(d, to) then true
    else if HasReadingAfter(d, to) then NextIsIdle(c, d, p, from, to)
    else NextIsIdle(d, c, p, from, to)
  }

  lemma RatesEqualIff(kpi: real, e: real, kpi': real, e': real, p: real)
    requires p > 0.0 && Rates(kpi, e, p) && Rates(kpi', e', p)
    ensures kpi == kpi' <==> e == e' || (Rejected(e, p) && Rejected(e', p))
  {
    SameQuotient(kpi, kpi', p);
  }

  lemma RatesRejected(kpi: real, e: real, p: real)
    requires Rates(kpi, e, p)
    ensures kpi == INVALID_KPI <==> Rejected(e, p)
  {
  }

  lemma NextIsIdleIff(c: Column, d: Column, p: Column, from: int, to: int)
    requires from < to && AgreeUpTo(c, d, to)
    requires !HasReadingAfter(c, to) && HasReadingAfter(d, to)
    ensures Kpi(c, p, from, to) == Kpi(d, p, from, to) <==> NextIsIdle(c, d, p, from, to)
  {
    hide Kpi, Total, GetEnergy, GetProduction, Energy, HasReadingAfter, AgreeUpTo, Rates, Rejected, Added, Idle;
    hide SingleEnergy;
    var rows, products, b := GetEnergy(c, from, to), GetProduction(p, from, to), NextReading(d, to);
    NextRow(c, d, from, to);
    KpiRates(c, p, from, to);
    KpiRates(d, p, from, to);
    if rows != [] && products != [] && Total(products) > 0.0 {
      RowsUpTo(c, from, to);
      var a, P := rows[|rows| - 1], Total(products);
      if |rows| == 1 {
        TwoRows(c, d, from, to);
        RatesRejected(Kpi(d, p, from, to), Energy(d, from, to), P);
      } else {
        EnergyWithNext(c, d, from, to);
        AddedZeroIff(a, b, to);
        RatesEqualIff(Kpi(c, p, from, to), Energy(c, from, to), Kpi(d, p, from, to), Energy(d, from, to), P);
      }
    }
  }

  lemma TwoRows(c: Column, d: Column, from: int, to: int)
    requires from < to && AgreeUpTo(c, d, to)
    requires !HasReadingAfter(c, to) && HasReadingAfter(d, to)
    requires |GetEnergy(c, from, to)| == 1
    ensures var a, b := GetEnergy(c, from, to)[0], NextReading(d, to);
      && a.t < b.t && Enough(d, from, to)
      && Energy(d, from, to) == SingleEnergy(a, b, from)
  {
    hide WindowEnergy, SingleEnergy, Lists, HasReadingAfter, AgreeUpTo;
    var a, b := GetEnergy(c, from, to)[0], NextReading(d, to);
    NextRow(c, d, from, to);
    RowsUpTo(c, from, to);
    assert GetEnergy(d, from, to) == [a, b];
    GetEnergyIsWindow(d, from, to);
    EnergyOfTwo(a, b, from, to);
  }

  // Two tables of one recording, one of which may have been loaded further,
  // give the same KPI for a window exactly under this condition.
  lemma SameKpiIff(c: Column, d: Column, p: Column, from: int, to: int)
    requires from < to && AgreeUpTo(c, d, to)
    requires ExtendsLater(c, d) || ExtendsLater(d, c)
    ensures Kpi(c, p, from, to) == Kpi(d, p, from, to) <==> SameKpi(c, d, p, from, to)
  {
    hide NextIsIdle, WindowEnergy, Total, HasReadingAfter;
    if HasReadingAfter(c, to) == HasReadingAfter(d, to) {
      if ExtendsLater(c, d) {
        EnergyStableIff(c, d, from, to);
      } else {
        EnergyStableIff(d, c, from, to);
      }
    } else if HasReadingAfter(d, to) {
      NextIsIdleIff(c, d, p, from, to);
    } else {
      NextIsIdleIff(d, c, p, from, to);
    }
  }
}
