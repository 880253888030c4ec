// The integration loop of KpiCalc::calculate (KpiCalc.cpp), proved against a
// reset-unwrapped, piecewise-linear cumulative meter.
module EnergyIntegration {
  import opened Readings

  const INVALID_KPI: real := -1.0
  const MAX_KPI: real := 30.0

  // ---------------------------------------------------------------------
  // The reference meter
  // ---------------------------------------------------------------------

  predicate IsReset(a: Reading, b: Reading) {
    b.v < a.v
  }

  // What the meter counted between two successive readings. After a reset it
  // restarted at zero.
  function Gain(a: Reading, b: Reading): real {
    if IsReset(a, b) then b.v else b.v - a.v
  }

  // The share of that gain up to time x, spread evenly over the interval.
  function Share(a: Reading, b: Reading, x: int): real
    requires a.t < b.t
  {
    Gain(a, b) / (b.t - a.t) as real * (x - a.t) as real
  }

  // The unwrapped meter at reading k: never set back, zero at the first reading.
  ghost function UnwrappedAt(rs: seq<Reading>, k: nat): real
    requires k < |rs|
  {
    if k == 0 then 0.0 else UnwrappedAt(rs, k - 1) + Gain(rs[k - 1], rs[k])
  }

  // The unwrapped meter at any time: linear between readings, constant outside.
  ghost function Unwrapped(rs: seq<Reading>, x: int): real
    requires Ordered(rs) && |rs| > 0
  {
    var k := Below(rs, x);
    if k == 0 then 0.0
    else if k == |rs| then UnwrappedAt(rs, k - 1)
    else UnwrappedAt(rs, k - 1) + Share(rs[k - 1], rs[k], x)
  }

  lemma ShareAtStart(a: Reading, b: Reading)
    requires a.t < b.t
    ensures Share(a, b, a.t) == 0.0
  {
  }

  lemma ShareAtEnd(a: Reading, b: Reading)
    requires a.t < b.t
    ensures Share(a, b, b.t) == Gain(a, b)
  {
  }

  // A gain g over a time p + q splits evenly.
  lemma EvenSplit(g: real, p: real, q: real)
    requires p + q > 0.0
    ensures g / (p + q) * p + g / (p + q) * q == g
    ensures g >= 0.0 ==> g / (p + q) >= 0.0
    ensures g / (p + q) == 0.0 <==> g == 0.0
  {
    var slope := g / (p + q);
    assert slope * (p + q) == g;
    assert slope < 0.0 ==> slope * (p + q) < 0.0;
  }

  lemma SignOfProduct(x: real, y: real)
    ensures x * y == 0.0 <==> x == 0.0 || y == 0.0
    ensures x >= 0.0 && y >= 0.0 ==> x * y >= 0.0
  {
  }

  lemma ShareBounds(a: Reading, b: Reading, x: int)
    requires a.t <= x <= b.t && a.t < b.t && a.v >= 0.0 && b.v >= 0.0
    ensures 0.0 <= Share(a, b, x) <= Gain(a, b)
  {
    var p, q := (x - a.t) as real, (b.t - x) as real;
    assert p + q == (b.t - a.t) as real;
    EvenSplit(Gain(a, b), p, q);
    SignOfProduct(Gain(a, b) / (p + q), p);
    SignOfProduct(Gain(a, b) / (p + q), q);
  }

  // Cutting an interval leaves a part empty only if nothing was gained at all.
  lemma ShareZeroIff(a: Reading, b: Reading, x: int)
    requires a.t < b.t
    ensures a.t != x ==> (Share(a, b, x) == 0.0 <==> Gain(a, b) == 0.0)
    ensures b.t != x ==> (Gain(a, b) - Share(a, b, x) == 0.0 <==> Gain(a, b) == 0.0)
  {
    hide Gain;
    var p, q := (x - a.t) as real, (b.t - x) as real;
    assert p + q == (b.t - a.t) as real;
    EvenSplit(Gain(a, b), p, q);
    SignOfProduct(Gain(a, b) / (p + q), p);
    SignOfProduct(Gain(a, b) / (p + q), q);
  }

  // Interpolating between two reset-free readings cuts the gain where the
  // unwrapped meter does.
  lemma InterpolationIsShare(a: Reading, b: Reading, x: int)
    requires a.t < b.t && !IsReset(a, b)
    ensures LinInterpolate(x, a.t, b.t, a.v, b.v) == a.v + Share(a, b, x)
  {
  }

  // The unwrapped meter passes through its readings.
  lemma UnwrappedPassesThrough(rs: seq<Reading>, k: nat)
    requires Ordered(rs) && k < |rs|
    ensures Unwrapped(rs, rs[k].t) == UnwrappedAt(rs, k)
  {
    hide Share, Splits;
    BelowIs(rs, rs[k].t, k);
    if k > 0 {
      ShareAtEnd(rs[k - 1], rs[k]);
    }
  }

  // As long as no reading is lower than the one before, it is the meter itself,
  // counted from the first reading. Equal readings are no reset.
  lemma {:induction false} UnwrappedNeverFalling(rs: seq<Reading>, k: nat)
    requires k < |rs|
    requires forall i | 0 <= i < k :: rs[i].v <= rs[i + 1].v
    ensures UnwrappedAt(rs, k) == rs[k].v - rs[0].v
  {
    if k > 0 {
      UnwrappedNeverFalling(rs, k - 1);
      assert rs[k - 1].v <= rs[k - 1 + 1].v;
    }
  }

  // At a lower reading the meter restarted at zero: the whole value counts.
  lemma UnwrappedAfterReset(rs: seq<Reading>, k: nat)
    requires k + 1 < |rs| && rs[k + 1].v < rs[k].v
    ensures UnwrappedAt(rs, k + 1) == UnwrappedAt(rs, k) + rs[k + 1].v
  {
  }

  // ---------------------------------------------------------------------
  // Where the loop counts more than the meter gained
  // ---------------------------------------------------------------------

  // A first interval that is a reset is counted whole although it starts
  // before the window.
  function HeadExcess(rows: seq<Reading>, from: int): real
    requires |rows| >= 2 && rows[0].t < rows[1].t
  {
    if rows[0].t < from && IsReset(rows[0], rows[1])
    then Share(rows[0], rows[1], from) else 0.0
  }

  // The last interval is counted whole although it ends after the window when
  // it is a reset, and also when it is the only interval.
  function TailExcess(rows: seq<Reading>, to: int): real
    requires |rows| >= 2 && rows[|rows| - 2].t < rows[|rows| - 1].t
  {
    var a, b := rows[|rows| - 2], rows[|rows| - 1];
    if to < b.t && (|rows| == 2 || IsReset(a, b)) then Gain(a, b) - Share(a, b, to) else 0.0
  }

  // The energy the loop returns for the rows of a window.
  ghost function WindowEnergy(rows: seq<Reading>, from: int, to: int): real
    requires IsWindow(rows, from, to)
  {
    Unwrapped(rows, to) - Unwrapped(rows, from) + HeadExcess(rows, from) + TailExcess(rows, to)
  }

  // The guards of the two branches that overcount, when there is something
  // to overcount.
  predicate HeadOvercounts(rows: seq<Reading>, from: int)
    requires |rows| >= 2
  {
    rows[0].t < from && IsReset(rows[0], rows[1]) && rows[1].v != 0.0
  }

  predicate TailOvercounts(rows: seq<Reading>, to: int)
    requires |rows| >= 2
  {
    var a, b := rows[|rows| - 2], rows[|rows| - 1];
    to < b.t && (|rows| == 2 || IsReset(a, b)) && Gain(a, b) != 0.0
  }

  lemma ExcessZeroIff(rows: seq<Reading>, from: int, to: int)
    requires IsWindow(rows, from, to)
    ensures HeadExcess(rows, from) == 0.0 <==> !HeadOvercounts(rows, from)
    ensures TailExcess(rows, to) == 0.0 <==> !TailOvercounts(rows, to)
  {
    hide Share;
    ShareZeroIff(rows[0], rows[1], from);
    ShareZeroIff(rows[|rows| - 2], rows[|rows| - 1], to);
  }

  lemma ExcessNonNegative(rows: seq<Reading>, from: int, to: int)
    requires IsWindow(rows, from, to) && NonNegative(rows)
    ensures HeadExcess(rows, from) >= 0.0 && TailExcess(rows, to) >= 0.0
  {
    hide Share;
    if rows[0].t < from {
      ShareBounds(rows[0], rows[1], from);
    }
    var a, b := rows[|rows| - 2], rows[|rows| - 1];
    if to < b.t {
      ShareBounds(a, b, to);
    }
  }

  // Whatever the readings: the closed form holds when neither branch
  // overcounts, and fails when exactly one does.
  lemma ClosedForm(rows: seq<Reading>, from: int, to: int)
    requires IsWindow(rows, from, to)
    ensures !HeadOvercounts(rows, from) && !TailOvercounts(rows, to)
        ==> WindowEnergy(rows, from, to) == Unwrapped(rows, to) - Unwrapped(rows, from)
    ensures HeadOvercounts(rows, from) != TailOvercounts(rows, to)
        ==> WindowEnergy(rows, from, to) != Unwrapped(rows, to) - Unwrapped(rows, from)
  {
    ExcessZeroIff(rows, from, to);
  }

  // For readings that are never negative two excesses cannot cancel: the
  // closed form holds exactly when neither branch overcounts.
  lemma ClosedFormIff(rows: seq<Reading>, from: int, to: int)
    requires IsWindow(rows, from, to) && NonNegative(rows)
    ensures WindowEnergy(rows, from, to) == Unwrapped(rows, to) - Unwrapped(rows, from)
       <==> !HeadOvercounts(rows, from) && !TailOvercounts(rows, to)
    ensures WindowEnergy(rows, from, to) >= Unwrapped(rows, to) - Unwrapped(rows, from)
  {
    ExcessZeroIff(rows, from, to);
    ExcessNonNegative(rows, from, to);
  }

  // ---------------------------------------------------------------------
  // KpiCalc::calculate
  // ---------------------------------------------------------------------

  function LinInterpolate(x: int, x1: int, x2: int, y1: real, y2: real): real
    requires x1 != x2
  {
    (y2 - y1) / (x2 - x1) as real * (x - x1) as real + y1
  }

  // The straight line through both readings.
  lemma InterpolationIsLine(x: int, x1: int, x2: int, y1: real, y2: real)
    requires x1 != x2
    ensures (LinInterpolate(x, x1, x2, y1, y2) - y1) * (x2 - x1) as real == (y2 - y1) * (x - x1) as real
  {
    var d, slope := (x2 - x1) as real, (y2 - y1) / (x2 - x1) as real;
    assert slope * d == y2 - y1;
    Reorder(slope, (x - x1) as real, d);
  }

  lemma Reorder(a: real, b: real, c: real)
    ensures a * b * c == a * c * b
  {
  }

  function Total(rows: seq<Reading>): real {
    if rows == [] then 0.0 else Total(rows[..|rows| - 1]) + rows[|rows| - 1].v
  }

  // Energy per production over (from, to], or INVALID_KPI.
  ghost function Kpi(energy: Column, production: Column, from: int, to: int): real
    requires from < to
  {
    var rows, products := GetEnergy(energy, from, to), GetProduction(production, from, to);
    if |rows| < 2 || products == [] || Total(products) <= 0.0 then INVALID_KPI
    else
      GetEnergyIsWindow(energy, from, to);
      var kpi := WindowEnergy(rows, from, to) / Total(products);
      if kpi > MAX_KPI then INVALID_KPI else kpi
  }

  // What interpolation cuts off the first and the last interval.
  function HeadClip(rows: seq<Reading>, from: int): real
    requires |rows| >= 2 && rows[0].t < rows[1].t
  {
    if rows[0].t < from && !IsReset(rows[0], rows[1])
    then Share(rows[0], rows[1], from) else 0.0
  }

  function TailClip(rows: seq<Reading>, to: int): real
    requires |rows| >= 2 && rows[|rows| - 2].t < rows[|rows| - 1].t
  {
    var a, b := rows[|rows| - 2], rows[|rows| - 1];
    if to < b.t && !IsReset(a, b) then Gain(a, b) - Share(a, b, to) else 0.0
  }

  // What interval i adds to the sum.
  ghost function Contribution(rows: seq<Reading>, from: int, to: int, i: nat): real
    requires IsWindow(rows, from, to) && i + 1 < |rows|
  {
    Gain(rows[i], rows[i + 1])
    - (if i == 0 then HeadClip(rows, from) else 0.0)
    - (if i > 0 && i + 2 == |rows| then TailClip(rows, to) else 0.0)
  }

  // What the first `done` intervals add up to.
  ghost function Accumulated(rows: seq<Reading>, from: int, to: int, done: nat): real
    requires IsWindow(rows, from, to) && done < |rows|
  {
    UnwrappedAt(rows, done)
    - (if done > 0 then HeadClip(rows, from) else 0.0)
    - (if done > 1 && done + 1 == |rows| then TailClip(rows, to) else 0.0)
  }

  lemma HeadParts(rows: seq<Reading>, from: int, to: int)
    requires IsWindow(rows, from, to)
    ensures Unwrapped(rows, from) == HeadClip(rows, from) + HeadExcess(rows, from)
  {
    hide Share, Splits;
    BelowIs(rows, from, if rows[0].t < from then 1 else 0);
    assert UnwrappedAt(rows, 0) == 0.0;
  }

  lemma TailParts(rows: seq<Reading>, from: int, to: int)
    requires IsWindow(rows, from, to)
    ensures UnwrappedAt(rows, |rows| - 1) - Unwrapped(rows, to)
         == (if |rows| > 2 then TailClip(rows, to) else 0.0) + TailExcess(rows, to)
  {
    hide Share, Splits;
    var n := |rows|;
    var a, b := rows[n - 2], rows[n - 1];
    if a.t == to {
      UnwrappedPassesThrough(rows, n - 2);
      ShareAtStart(a, b);
    } else if b.t == to {
      UnwrappedPassesThrough(rows, n - 1);
    } else {
      BelowIs(rows, to, if to < b.t then n - 1 else n);
    }
  }

  lemma AccumulatedAll(rows: seq<Reading>, from: int, to: int)
    requires IsWindow(rows, from, to)
    ensures Accumulated(rows, from, to, |rows| - 1) == WindowEnergy(rows, from, to)
  {
    hide Unwrapped, HeadClip, TailClip, HeadExcess, TailExcess, Splits;
    HeadParts(rows, from, to);
    TailParts(rows, from, to);
  }

  method Calculate(rows: seq<Reading>, products: seq<Reading>, from: int, to: int,
                   ghost energy: Column, ghost production: Column)
    returns (kpi: real)
    requires from < to
    requires rows == GetEnergy(energy, from, to)
    requires products == GetProduction(production, from, to)
    ensures kpi == Kpi(energy, production, from, to)
  {
    hide Share, LinInterpolate, Splits, Lists;
    if |rows| < 2 {
      return INVALID_KPI;
    }
    GetEnergyIsWindow(energy, from, to);

    var sum := 0.0;
    var i := 0;
    while i + 1 < |rows|
      invariant 0 <= i < |rows|
      invariant sum == Accumulated(rows, from, to, i)
    {
      var a, b := rows[i], rows[i + 1];
      var e;
      if i == 0 {
        // first interval
        if b.v < a.v {
          e := b.v;
        } else if a.t < from {
          InterpolationIsShare(a, b, from);
          e := b.v - LinInterpolate(from, a.t, b.t, a.v, b.v);
        } else {
          e := b.v - a.v;
        }
      } else if i + 2 == |rows| {
        // last interval
        if b.v < a.v {
          e := b.v;
        } else if b.t > to {
          InterpolationIsShare(a, b, to);
          e := LinInterpolate(to, a.t, b.t, a.v, b.v) - a.v;
        } else {
          e := b.v - a.v;
        }
      } else {
        e := if b.v < a.v then b.v else b.v - a.v;
      }
      assert e == Contribution(rows, from, to, i);
      sum := sum + e;
      i := i + 1;
    }
    AccumulatedAll(rows, from, to);

    if products == [] {
      return INVALID_KPI;
    }
    var p := 0.0;
    for k := 0 to |products|
      invariant p == Total(products[..k])
    {
      assert products[..k + 1][..k] == products[..k];
      p := p + products[k].v;
    }
    assert products[..|products|] == products;
    kpi := if p > 0.0 then sum / p else INVALID_KPI;
    if kpi > MAX_KPI {
      kpi := INVALID_KPI;
    }
  }
}
