// Daily and weekly windows over one table (KpiCalc.cpp:20-30): how their
// energies, productions and KPIs fit together.
module KpiWindows {
  import opened Options
  import opened Readings
  import opened EnergyIntegration

  const DAY: int := 86400

  // The unwrapped meter of a whole table.
  ghost function Meter(c: Column, x: int): real
    requires |All(c)| > 0
  {
    Unwrapped(All(c), x)
  }

  // The energy of a window; what calculate sums up.
  ghost function Energy(c: Column, from: int, to: int): real
    requires from < to && Enough(c, from, to)
  {
    GetEnergyIsWindow(c, from, to);
    WindowEnergy(GetEnergy(c, from, to), from, to)
  }

  ghost predicate Enough(c: Column, from: int, to: int) {
    |GetEnergy(c, from, to)| >= 2
  }

  // ---------------------------------------------------------------------
  // From the rows of a window to the whole table
  // ---------------------------------------------------------------------

  lemma {:induction false} UnwrappedAtShift(rs: seq<Reading>, lo: nat, hi: nat, k: nat)
    requires lo <= hi <= |rs| && k < hi - lo
    ensures UnwrappedAt(rs[lo..hi], k) == UnwrappedAt(rs, lo + k) - UnwrappedAt(rs, lo)
  {
    hide Gain;
    if k > 0 {
      UnwrappedAtShift(rs, lo, hi, k - 1);
    }
  }

  lemma BelowShift(rs: seq<Reading>, from: int, to: int, x: int)
    requires Ordered(rs) && from <= x <= to && Lo(rs, from) <= Hi(rs, to)
    ensures Lo(rs, from) <= Below(rs, x) <= Hi(rs, to)
    ensures Below(rs[Lo(rs, from)..Hi(rs, to)], x) == Below(rs, x) - Lo(rs, from)
    ensures Below(rs, x) == Lo(rs, from) ==> Lo(rs, from) == 0
    ensures Below(rs, x) == Hi(rs, to) ==> Hi(rs, to) == |rs|
  {
    hide Splits;
    BelowMonotone(rs, from, x);
    BelowMonotone(rs, x, to + 1);
    BelowNeighbours(rs, x);
    BelowIs(rs[Lo(rs, from)..Hi(rs, to)], x, Below(rs, x) - Lo(rs, from));
  }

  lemma SliceOrdered(rs: seq<Reading>, lo: nat, hi: nat)
    requires Ordered(rs) && lo <= hi <= |rs|
    ensures Ordered(rs[lo..hi])
  {
  }

  lemma UnwrappedShift(rs: seq<Reading>, from: int, to: int, x: int)
    requires Ordered(rs) && from <= x <= to && Lo(rs, from) < Hi(rs, to)
    ensures Ordered(rs[Lo(rs, from)..Hi(rs, to)])
    ensures Unwrapped(rs[Lo(rs, from)..Hi(rs, to)], x)
         == Unwrapped(rs, x) - UnwrappedAt(rs, Lo(rs, from))
  {
    hide Share, Gain, IsReset, Splits, Lists, Ordered;
    var lo, hi := Lo(rs, from), Hi(rs, to);
    SliceOrdered(rs, lo, hi);
    BelowShift(rs, from, to, x);
    hide Lo, Hi;
    var k := Below(rs, x) - lo;
    if k == 0 {
      assert UnwrappedAt(rs, 0) == 0.0;
    } else {
      UnwrappedAtShift(rs, lo, hi, k - 1);
      assert k < hi - lo ==> rs[lo..hi][k - 1] == rs[lo + k - 1] && rs[lo..hi][k] == rs[lo + k];
    }
  }

  // The excess at a cut, read off the whole table: it depends on the
  // interval the cut lies in and on no other row.
  ghost function HeadAt(rs: seq<Reading>, from: int): real
    requires Ordered(rs)
  {
    var k := Below(rs, from);
    if 0 < k < |rs| && IsReset(rs[k - 1], rs[k]) then Share(rs[k - 1], rs[k], from) else 0.0
  }

  ghost function TailAt(rs: seq<Reading>, to: int, single: bool): real
    requires Ordered(rs)
  {
    var k := Below(rs, to + 1);
    if 0 < k < |rs| && (single || IsReset(rs[k - 1], rs[k]))
    then Gain(rs[k - 1], rs[k]) - Share(rs[k - 1], rs[k], to) else 0.0
  }

  lemma ExcessAt(rs: seq<Reading>, from: int, to: int)
    requires Ordered(rs) && from < to && Lo(rs, from) + 2 <= Hi(rs, to)
    requires IsWindow(rs[Lo(rs, from)..Hi(rs, to)], from, to)
    ensures var rows := rs[Lo(rs, from)..Hi(rs, to)];
      && HeadExcess(rows, from) == HeadAt(rs, from)
      && TailExcess(rows, to) == TailAt(rs, to, |rows| == 2)
  {
    hide Share, Gain, IsReset, Splits;
    BelowMonotone(rs, from, to + 1);
    BelowNeighbours(rs, from);
    BelowNeighbours(rs, to + 1);
  }

  // The energy of a window is the gain of the table's meter over it, plus the
  // excess at its two ends.
  lemma EnergyFromMeter(c: Column, from: int, to: int)
    requires from < to && Enough(c, from, to)
    ensures |All(c)| >= 2
    ensures Energy(c, from, to) == Meter(c, to) - Meter(c, from)
         + HeadAt(All(c), from) + TailAt(All(c), to, |GetEnergy(c, from, to)| == 2)
  {
    hide HeadExcess, TailExcess, HeadAt, TailAt, Unwrapped, Splits, Lists, Ordered;
    GetEnergyIsSlice(c, from, to);
    GetEnergyIsWindow(c, from, to);
    ExcessAt(All(c), from, to);
    UnwrappedShift(All(c), from, to, from);
    UnwrappedShift(All(c), from, to, to);
  }

  // ---------------------------------------------------------------------
  // Sums
  // ---------------------------------------------------------------------

  ghost function Sum(xs: seq<real>): real {
    if xs == [] then 0.0 else Sum(xs[..|xs| - 1]) + xs[|xs| - 1]
  }

  lemma {:induction false} SumOfNonNegative(xs: seq<real>)
    requires forall i | 0 <= i < |xs| :: xs[i] >= 0.0
    ensures Sum(xs) >= 0.0
    ensures Sum(xs) == 0.0 <==> forall i | 0 <= i < |xs| :: xs[i] == 0.0
  {
    if xs != [] {
      SumOfNonNegative(xs[..|xs| - 1]);
    }
  }

  // Window energies es[i] = ms[i + 1] - ms[i] + hs[i] + ts[i] telescope; what
  // remains besides the two ends is the excess on both sides of inner cuts.
  lemma {:induction false} Telescope(es: seq<real>, ms: seq<real>, hs: seq<real>, ts: seq<real>,
                                     inner: seq<real>)
    requires |es| == |hs| == |ts| == |ms| - 1 == |inner| + 1
    requires forall i | 0 <= i < |es| :: es[i] == ms[i + 1] - ms[i] + hs[i] + ts[i]
    requires forall i | 0 <= i < |inner| :: inner[i] == ts[i] + hs[i + 1]
    ensures Sum(es) == ms[|es|] - ms[0] + hs[0] + Sum(inner) + ts[|es| - 1]
  {
    var n := |es|;
    if n == 1 {
      assert es[..0] == [];
    } else {
      Telescope(es[..n - 1], ms[..n], hs[..n - 1], ts[..n - 1], inner[..n - 2]);
    }
  }

  // ---------------------------------------------------------------------
  // Additivity
  // ---------------------------------------------------------------------

  ghost predicate Increasing(cuts: seq<int>) {
    forall i, j | 0 <= i < j < |cuts| :: cuts[i] < cuts[j]
  }

  ghost predicate IsCuts(c: Column, cuts: seq<int>) {
    && |cuts| >= 2
    && Increasing(cuts)
    && (forall i | 0 <= i < |cuts| - 1 :: Enough(c, cuts[i], cuts[i + 1]))
  }

  ghost function Rows(c: Column, cuts: seq<int>, i: int): seq<Reading>
    requires 0 <= i < |cuts| - 1
  {
    GetEnergy(c, cuts[i], cuts[i + 1])
  }

  ghost function Joined(c: Column, cuts: seq<int>): seq<Reading>
    requires |cuts| >= 2
  {
    GetEnergy(c, cuts[0], cuts[|cuts| - 1])
  }

  // The energies of the windows between successive cuts.
  ghost function Energies(c: Column, cuts: seq<int>): (es: seq<real>)
    requires IsCuts(c, cuts)
    ensures |es| == |cuts| - 1
  {
    seq(|cuts| - 1, i requires 0 <= i < |cuts| - 1 => Energy(c, cuts[i], cuts[i + 1]))
  }

  // The excess on both sides of each inner cut.
  ghost function CutExcesses(c: Column, cuts: seq<int>): (xs: seq<real>)
    requires |cuts| >= 2
    ensures |xs| == |cuts| - 2
  {
    seq(|cuts| - 2, i requires 0 <= i < |cuts| - 2 => TailOf(c, cuts, i) + HeadAt(All(c), cuts[i + 1]))
  }

  // What part i counts beyond its end.
  ghost function TailOf(c: Column, cuts: seq<int>, i: int): real
    requires 0 <= i < |cuts| - 1
  {
    TailAt(All(c), cuts[i + 1], |Rows(c, cuts, i)| == 2)
  }

  // How far the parts of a window add up to more than the window.
  ghost function AdditivityGap(c: Column, cuts: seq<int>): real
    requires |cuts| >= 2
  {
    var n := |cuts| - 1;
    Sum(CutExcesses(c, cuts))
    + TailOf(c, cuts, n - 1) - TailAt(All(c), cuts[n], |Joined(c, cuts)| == 2)
  }

  // The joined window has at least the rows of its last part.
  lemma JoinedHasMore(c: Column, cuts: seq<int>)
    requires IsCuts(c, cuts)
    ensures |Joined(c, cuts)| >= |Rows(c, cuts, |cuts| - 2)| >= 2
  {
    hide Splits, Lists, Ordered;
    var n := |cuts| - 1;
    GetEnergyIsSlice(c, cuts[n - 1], cuts[n]);
    GetEnergyIsSlice(c, cuts[0], cuts[n]);
    BelowMonotone(All(c), cuts[0], cuts[n - 1]);
  }

  ghost function Meters(c: Column, cuts: seq<int>): (ms: seq<real>)
    requires |All(c)| > 0
    ensures |ms| == |cuts|
  {
    seq(|cuts|, i requires 0 <= i < |cuts| => Meter(c, cuts[i]))
  }

  ghost function Heads(c: Column, cuts: seq<int>): (hs: seq<real>)
    requires |cuts| >= 2
    ensures |hs| == |cuts| - 1
  {
    seq(|cuts| - 1, i requires 0 <= i < |cuts| - 1 => HeadAt(All(c), cuts[i]))
  }

  ghost function Tails(c: Column, cuts: seq<int>): (ts: seq<real>)
    requires |cuts| >= 2
    ensures |ts| == |cuts| - 1
  {
    seq(|cuts| - 1, i requires 0 <= i < |cuts| - 1 => TailOf(c, cuts, i))
  }

  lemma TermsAt(c: Column, cuts: seq<int>, i: int)
    requires IsCuts(c, cuts) && 0 <= i < |cuts| - 1 && |All(c)| > 0
    ensures Meters(c, cuts)[i] == Meter(c, cuts[i])
    ensures Meters(c, cuts)[i + 1] == Meter(c, cuts[i + 1])
    ensures Heads(c, cuts)[i] == HeadAt(All(c), cuts[i])
    ensures Tails(c, cuts)[i] == TailOf(c, cuts, i)
    ensures Energies(c, cuts)[i]
         == Meters(c, cuts)[i + 1] - Meters(c, cuts)[i] + Heads(c, cuts)[i] + Tails(c, cuts)[i]
    ensures i < |cuts| - 2 ==> CutExcesses(c, cuts)[i] == Tails(c, cuts)[i] + Heads(c, cuts)[i + 1]
  {
    hide Energy, HeadAt, TailAt, Meter, Ordered, Lists, Splits, GetEnergy, All, Increasing;
    assert cuts[i] < cuts[i + 1] by {
      assert Increasing(cuts);
      InOrder(cuts, i);
    }
    EnergyFromMeter(c, cuts[i], cuts[i + 1]);
  }

  lemma InOrder(cuts: seq<int>, i: int)
    requires Increasing(cuts) && 0 <= i < |cuts| - 1
    ensures cuts[i] < cuts[i + 1]
  {
  }

  lemma SumFromMeter(c: Column, cuts: seq<int>)
    requires IsCuts(c, cuts)
    ensures |All(c)| >= 2
    ensures var n := |cuts| - 1;
      Sum(Energies(c, cuts)) == Meter(c, cuts[n]) - Meter(c, cuts[0])
        + HeadAt(All(c), cuts[0]) + Sum(CutExcesses(c, cuts)) + TailOf(c, cuts, n - 1)
  {
    var n := |cuts| - 1;
    EnergyFromMeter(c, cuts[0], cuts[1]);
    hide Energies, CutExcesses, Meters, Heads, Tails, TailOf, HeadAt, Meter, Sum, IsCuts;
    hide Ordered, Lists, Splits;
    var es, ms, hs, ts := Energies(c, cuts), Meters(c, cuts), Heads(c, cuts), Tails(c, cuts);
    var inner := CutExcesses(c, cuts);
    forall i | 0 <= i < n
      ensures es[i] == ms[i + 1] - ms[i] + hs[i] + ts[i]
      ensures i < n - 1 ==> inner[i] == ts[i] + hs[i + 1]
    {
      TermsAt(c, cuts, i);
    }
    Telescope(es, ms, hs, ts, inner);
    TermsAt(c, cuts, 0);
    TermsAt(c, cuts, n - 1);
  }

  lemma SumIsJoinedPlusGap(c: Column, cuts: seq<int>)
    requires IsCuts(c, cuts)
    ensures |Joined(c, cuts)| >= 2
    ensures Sum(Energies(c, cuts))
         == Energy(c, cuts[0], cuts[|cuts| - 1]) + AdditivityGap(c, cuts)
  {
    hide Energy, Energies, CutExcesses, HeadAt, TailAt, Meter, Ordered, Lists, Splits, Sum;
    JoinedHasMore(c, cuts);
    EnergyFromMeter(c, cuts[0], cuts[|cuts| - 1]);
    SumFromMeter(c, cuts);
  }

  // Neither the window that ends at inner cut i nor the one that starts there
  // overcounts.
  ghost predicate CleanCut(c: Column, cuts: seq<int>, i: int)
    requires IsCuts(c, cuts) && 0 < i < |cuts| - 1
  {
    && !TailOvercounts(Rows(c, cuts, i - 1), cuts[i])
    && !HeadOvercounts(Rows(c, cuts, i), cuts[i])
  }

  // No branch overcounts at an inner cut, and the last part does not lose the
  // clipping that the joined window has.
  ghost predicate CleanCuts(c: Column, cuts: seq<int>)
    requires IsCuts(c, cuts) && |Joined(c, cuts)| >= 2
  {
    var n := |cuts| - 1;
    && (forall i | 0 < i < n :: CleanCut(c, cuts, i))
    && (TailOvercounts(Rows(c, cuts, n - 1), cuts[n]) ==> TailOvercounts(Joined(c, cuts), cuts[n]))
  }

  lemma {:induction false} SumOfZeros(xs: seq<real>)
    requires forall i | 0 <= i < |xs| :: xs[i] == 0.0
    ensures Sum(xs) == 0.0
  {
    if xs != [] {
      SumOfZeros(xs[..|xs| - 1]);
    }
  }

  // The excess of a window at its two ends.
  lemma ExcessAtEnds(c: Column, from: int, to: int)
    requires from < to && Enough(c, from, to)
    ensures var rows := GetEnergy(c, from, to);
      && (HeadAt(All(c), from) == 0.0 <==> !HeadOvercounts(rows, from))
      && (TailAt(All(c), to, |rows| == 2) == 0.0 <==> !TailOvercounts(rows, to))
      && (NonNegative(All(c)) ==> HeadAt(All(c), from) >= 0.0 && TailAt(All(c), to, |rows| == 2) >= 0.0)
  {
    hide HeadAt, TailAt, HeadExcess, TailExcess, HeadOvercounts, TailOvercounts, Splits, Lists;
    var rows := GetEnergy(c, from, to);
    GetEnergyIsSlice(c, from, to);
    GetEnergyIsWindow(c, from, to);
    ExcessAt(All(c), from, to);
    ExcessZeroIff(rows, from, to);
    if NonNegative(All(c)) {
      ExcessNonNegative(rows, from, to);
    }
  }

  lemma CutExcessAt(c: Column, cuts: seq<int>, j: int)
    requires IsCuts(c, cuts) && 0 <= j < |cuts| - 2
    ensures CleanCut(c, cuts, j + 1) ==> CutExcesses(c, cuts)[j] == 0.0
    ensures NonNegative(All(c)) ==>
      CutExcesses(c, cuts)[j] >= 0.0 && (CutExcesses(c, cuts)[j] == 0.0 ==> CleanCut(c, cuts, j + 1))
  {
    hide HeadAt, TailAt, HeadOvercounts, TailOvercounts, Ordered, Lists, Splits, NonNegative, GetEnergy, IsWindow;
    ExcessAtEnds(c, cuts[j], cuts[j + 1]);
    ExcessAtEnds(c, cuts[j + 1], cuts[j + 2]);
  }

  lemma CutExcessesAt(c: Column, cuts: seq<int>)
    requires IsCuts(c, cuts)
    ensures forall j | 0 <= j < |cuts| - 2 ::
      && (CleanCut(c, cuts, j + 1) ==> CutExcesses(c, cuts)[j] == 0.0)
      && (NonNegative(All(c)) ==>
            CutExcesses(c, cuts)[j] >= 0.0 && (CutExcesses(c, cuts)[j] == 0.0 ==> CleanCut(c, cuts, j + 1)))
  {
    hide *;
    forall j | 0 <= j < |cuts| - 2
      ensures CleanCut(c, cuts, j + 1) ==> CutExcesses(c, cuts)[j] == 0.0
      ensures NonNegative(All(c)) ==>
        CutExcesses(c, cuts)[j] >= 0.0 && (CutExcesses(c, cuts)[j] == 0.0 ==> CleanCut(c, cuts, j + 1))
    {
      CutExcessAt(c, cuts, j);
    }
  }

  // What the last part counts beyond its end, compared with the joined window.
  lemma LastTail(c: Column, cuts: seq<int>)
    requires IsCuts(c, cuts) && |Joined(c, cuts)| >= 2
    ensures var n := |cuts| - 1;
            var last := TailOf(c, cuts, n - 1);
            var joined := TailAt(All(c), cuts[n], |Joined(c, cuts)| == 2);
      && (last == joined <==>
            (TailOvercounts(Rows(c, cuts, n - 1), cuts[n]) ==> TailOvercounts(Joined(c, cuts), cuts[n])))
      && (NonNegative(All(c)) ==> last >= joined)
  {
    hide HeadAt, TailAt, HeadOvercounts, TailOvercounts, Ordered, Lists, Splits, NonNegative;
    var n := |cuts| - 1;
    JoinedHasMore(c, cuts);
    ExcessAtEnds(c, cuts[n - 1], cuts[n]);
    ExcessAtEnds(c, cuts[0], cuts[n]);
    TailAtCases(All(c), cuts[n]);
  }

  lemma TailAtCases(rs: seq<Reading>, to: int)
    requires Ordered(rs)
    ensures TailAt(rs, to, false) == 0.0 || TailAt(rs, to, false) == TailAt(rs, to, true)
  {
    hide Share, Gain, IsReset;
  }

  // Whatever the readings: adjacent windows add up to the joined window when
  // the cuts are clean.
  lemma Additivity(c: Column, cuts: seq<int>)
    requires IsCuts(c, cuts)
    ensures |Joined(c, cuts)| >= 2
    ensures CleanCuts(c, cuts) ==> Sum(Energies(c, cuts)) == Energy(c, cuts[0], cuts[|cuts| - 1])
  {
    hide HeadAt, TailAt, Energy, HeadOvercounts, TailOvercounts, Ordered, Lists, Splits, Rows, Joined, CleanCut;
    SumIsJoinedPlusGap(c, cuts);
    CutExcessesAt(c, cuts);
    LastTail(c, cuts);
    if CleanCuts(c, cuts) {
      SumOfZeros(CutExcesses(c, cuts));
    }
  }

  // For readings that are never negative they add up exactly then, and never
  // to less.
  lemma AdditivityIff(c: Column, cuts: seq<int>)
    requires IsCuts(c, cuts) && NonNegative(All(c))
    ensures |Joined(c, cuts)| >= 2
    ensures Sum(Energies(c, cuts)) >= Energy(c, cuts[0], cuts[|cuts| - 1])
    ensures Sum(Energies(c, cuts)) == Energy(c, cuts[0], cuts[|cuts| - 1]) <==> CleanCuts(c, cuts)
  {
    hide HeadAt, TailAt, Energy, HeadOvercounts, TailOvercounts, Ordered, Lists, Splits, Rows, Joined, CleanCut;
    var n := |cuts| - 1;
    SumIsJoinedPlusGap(c, cuts);
    CutExcessesAt(c, cuts);
    LastTail(c, cuts);
    SumOfNonNegative(CutExcesses(c, cuts));
    if Sum(CutExcesses(c, cuts)) == 0.0 {
      forall i | 0 < i < n ensures CleanCut(c, cuts, i) {
        assert CutExcesses(c, cuts)[i - 1] == 0.0;
      }
    }
  }

  // ---------------------------------------------------------------------
  // Valid KPIs
  // ---------------------------------------------------------------------

  lemma {:induction false} UnwrappedAtMonotone(rs: seq<Reading>, i: nat, j: nat)
    requires NonNegative(rs) && i <= j < |rs|
    ensures UnwrappedAt(rs, i) <= UnwrappedAt(rs, j)
  {
    if i < j {
      UnwrappedAtMonotone(rs, i, j - 1);
    }
  }

  // Between which two readings the unwrapped meter lies.
  lemma UnwrappedBetween(rs: seq<Reading>, x: int)
    requires Ordered(rs) && |rs| > 0 && NonNegative(rs)
    ensures var k := Below(rs, x);
      && UnwrappedAt(rs, if k == 0 then 0 else k - 1) <= Unwrapped(rs, x)
      && Unwrapped(rs, x) <= UnwrappedAt(rs, if k == |rs| then k - 1 else k)
  {
    var k := Below(rs, x);
    if 0 < k < |rs| {
      ShareBounds(rs[k - 1], rs[k], x);
    }
  }

  // The unwrapped meter never runs backwards.
  lemma UnwrappedMonotone(rs: seq<Reading>, x: int, y: int)
    requires Ordered(rs) && |rs| > 0 && NonNegative(rs) && x <= y
    ensures Unwrapped(rs, x) <= Unwrapped(rs, y)
  {
    BelowMonotone(rs, x, y);
    var j, k := Below(rs, x), Below(rs, y);
    UnwrappedBetween(rs, x);
    UnwrappedBetween(rs, y);
    if j < k {
      UnwrappedAtMonotone(rs, j, k - 1);
    } else if 0 < k < |rs| {
      ShareMonotone(rs[k - 1], rs[k], x, y);
    }
  }

  lemma ShareMonotone(a: Reading, b: Reading, x: int, y: int)
    requires a.t <= x <= y <= b.t && a.t < b.t && a.v >= 0.0 && b.v >= 0.0
    ensures Share(a, b, x) <= Share(a, b, y)
  {
    var slope := Gain(a, b) / (b.t - a.t) as real;
    assert slope >= 0.0;
    assert slope * ((y - a.t) as real) - slope * ((x - a.t) as real) == slope * ((y - x) as real);
    assert slope * ((y - x) as real) >= 0.0;
  }

  lemma EnergyNonNegative(c: Column, from: int, to: int)
    requires from < to && Enough(c, from, to) && NonNegative(All(c))
    ensures Energy(c, from, to) >= 0.0
  {
    hide Energy, HeadAt, TailAt, Unwrapped, HeadOvercounts, TailOvercounts, Splits, Lists, Ordered;
    EnergyFromMeter(c, from, to);
    ExcessAtEnds(c, from, to);
    UnwrappedMonotone(All(c), from, to);
  }

  // The KPI of energy e and production p > 0 reads -1. A quotient of exactly -1
  // reads like the sentinel.
  ghost predicate Rejected(e: real, p: real) {
    e > MAX_KPI * p || e == -p
  }

  // kpi is what calculate makes of energy e and production p > 0.
  ghost predicate Rates(kpi: real, e: real, p: real) {
    && (kpi == INVALID_KPI <==> Rejected(e, p))
    && (kpi != INVALID_KPI ==> kpi <= MAX_KPI && kpi * p == e)
  }

  lemma KpiRates(energy: Column, production: Column, from: int, to: int)
    requires from < to
    ensures var kpi := Kpi(energy, production, from, to);
            var products := GetProduction(production, from, to);
      if Enough(energy, from, to) && products != [] && Total(products) > 0.0
      then Rates(kpi, Energy(energy, from, to), Total(products))
      else kpi == INVALID_KPI
  {
    hide WindowEnergy, Total, Lists, Ordered, Rates;
    var products := GetProduction(production, from, to);
    if Enough(energy, from, to) && products != [] && Total(products) > 0.0 {
      Quotient(Energy(energy, from, to), Total(products), Kpi(energy, production, from, to));
    }
  }

  // Whatever the readings: -1 is returned in exactly the four cases the code
  // rejects and for a quotient of -1; every other KPI is the quotient.
  lemma KpiIsValidIff(energy: Column, production: Column, from: int, to: int)
    requires from < to
    ensures var kpi := Kpi(energy, production, from, to);
            var products := GetProduction(production, from, to);
      if |GetEnergy(energy, from, to)| >= 2 && products != [] && Total(products) > 0.0
      then
        var e, p := Energy(energy, from, to), Total(products);
        && (kpi == -1.0 <==> e > 30.0 * p || e == -p)
        && (kpi != -1.0 ==> kpi <= 30.0 && kpi * p == e)
      else kpi == -1.0
  {
    hide Kpi, Energy, Total, GetEnergy, GetProduction;
    KpiRates(energy, production, from, to);
  }

  // A meter that never reads below zero makes the sentinel unambiguous: every
  // KPI but -1 lies in [0, 30], and -1 is never a quotient.
  lemma SentinelIsUnambiguous(energy: Column, production: Column, from: int, to: int)
    requires from < to && NonNegative(All(energy))
    ensures var kpi := Kpi(energy, production, from, to);
            var products := GetProduction(production, from, to);
      && (kpi == -1.0 || 0.0 <= kpi <= 30.0)
      && (kpi == -1.0 <==>
            !(|GetEnergy(energy, from, to)| >= 2 && products != [] && Total(products) > 0.0)
            || Energy(energy, from, to) > 30.0 * Total(products))
  {
    hide WindowEnergy, Total, Lists, Ordered, Kpi, Energy, Rates;
    var kpi, products := Kpi(energy, production, from, to), GetProduction(production, from, to);
    KpiRates(energy, production, from, to);
    if Enough(energy, from, to) && products != [] && Total(products) > 0.0 {
      EnergyNonNegative(energy, from, to);
      RatedNonNegative(kpi, Energy(energy, from, to), Total(products));
    }
  }

  lemma Quotient(e: real, p: real, kpi: real)
    requires p > 0.0
    requires kpi == if e / p > MAX_KPI then INVALID_KPI else e / p
    ensures Rates(kpi, e, p)
  {
    var q := e / p;
    assert q * p == e;
    OrderTimes(q, MAX_KPI, p);
    assert INVALID_KPI * p == -p;
    SameQuotient(q, INVALID_KPI, p);
  }

  lemma SameQuotient(x: real, y: real, p: real)
    requires p > 0.0
    ensures x == y <==> x * p == y * p
  {
    OrderTimes(x, y, p);
    OrderTimes(y, x, p);
  }

  lemma RatedNonNegative(kpi: real, e: real, p: real)
    requires p > 0.0 && e >= 0.0 && Rates(kpi, e, p)
    ensures kpi == INVALID_KPI <==> e > MAX_KPI * p
    ensures kpi == INVALID_KPI || 0.0 <= kpi <= MAX_KPI
  {
    OrderTimes(0.0, kpi, p);
  }

  lemma OrderTimes(x: real, y: real, p: real)
    requires p > 0.0
    ensures x <= y <==> x * p <= y * p
  {
    assert y * p - x * p == (y - x) * p;
  }

  // ---------------------------------------------------------------------
  // Meters that need no reference
  // ---------------------------------------------------------------------

  ghost predicate NeverFalls(rows: seq<Reading>) {
    forall i | 0 <= i < |rows| - 1 :: rows[i].v <= rows[i + 1].v
  }

  lemma NeverFallsClosed(rows: seq<Reading>, from: int, to: int)
    requires IsWindow(rows, from, to) && NeverFalls(rows)
    requires |rows| >= 3 || rows[|rows| - 1].t <= to
    ensures WindowEnergy(rows, from, to) == Unwrapped(rows, to) - Unwrapped(rows, from)
  {
    hide Unwrapped, Share;
    assert rows[0].v <= rows[0 + 1].v;
    assert rows[|rows| - 2].v <= rows[|rows| - 2 + 1].v;
  }

  // A meter that never falls between two readings at the ends of the window:
  // the energy is the last reading minus the first.
  lemma EnergyNeverFalling(c: Column, from: int, to: int, v: real, w: real)
    requires from < to && Reading(from, v) in GetEnergy(c, from, to) && Reading(to, w) in GetEnergy(c, from, to)
    requires NeverFalls(GetEnergy(c, from, to))
    ensures Enough(c, from, to) && Energy(c, from, to) == w - v
  {
    hide GetEnergy, WindowEnergy, Unwrapped, Splits;
    var rows := GetEnergy(c, from, to);
    EnergyRows(c, from, to, rows[0]);
    var i :| 0 <= i < |rows| && rows[i] == Reading(from, v);
    var j :| 0 <= j < |rows| && rows[j] == Reading(to, w);
    assert i < j;
    GetEnergyIsWindow(c, from, to);
    NeverFallsClosed(rows, from, to);
    UnwrappedPassesThrough(rows, i);
    UnwrappedPassesThrough(rows, j);
    UnwrappedNeverFalling(rows, i);
    UnwrappedNeverFalling(rows, j);
  }

  // A meter that stands still uses no energy, and its KPI is zero.
  lemma EnergyStandingStill(energy: Column, production: Column, from: int, to: int)
    requires from < to && |GetEnergy(energy, from, to)| >= 2
    requires forall i | 0 <= i < |GetEnergy(energy, from, to)| ::
      GetEnergy(energy, from, to)[i].v == GetEnergy(energy, from, to)[0].v
    ensures Energy(energy, from, to) == 0.0
    ensures var products := GetProduction(production, from, to);
      products != [] && Total(products) > 0.0 ==> Kpi(energy, production, from, to) == 0.0
  {
    hide GetEnergy, GetProduction, Unwrapped, Splits, Total;
    var rows := GetEnergy(energy, from, to);
    GetEnergyIsWindow(energy, from, to);
    StandsStill(rows, from, to);
    hide WindowEnergy;
    assert Energy(energy, from, to) == 0.0;
  }

  lemma StandsStill(rows: seq<Reading>, from: int, to: int)
    requires IsWindow(rows, from, to) && forall i | 0 <= i < |rows| :: rows[i].v == rows[0].v
    ensures WindowEnergy(rows, from, to) == 0.0
  {
    hide Unwrapped, Share, Splits;
    UnwrappedStandingStill(rows, from);
    UnwrappedStandingStill(rows, to);
    ShareZeroIff(rows[|rows| - 2], rows[|rows| - 1], to);
  }

  lemma UnwrappedStandingStill(rs: seq<Reading>, x: int)
    requires Ordered(rs) && |rs| > 0 && forall i | 0 <= i < |rs| :: rs[i].v == rs[0].v
    ensures Unwrapped(rs, x) == 0.0
  {
    hide Share, Splits;
    var k := Below(rs, x);
    if k > 0 {
      UnwrappedNeverFalling(rs, k - 1);
    }
    if 0 < k < |rs| {
      ShareZeroIff(rs[k - 1], rs[k], x);
      ShareAtStart(rs[k - 1], rs[k]);
    }
  }

  // A constant load is integrated exactly, wherever the readings lie: both ends
  // of the window are interpolated.
  lemma ConstantLoad(c: Column, from: int, to: int, load: real, start: real)
    requires from < to && load >= 0.0 && |GetEnergy(c, from, to)| >= 2
    requires var rows := GetEnergy(c, from, to);
      && (forall i | 0 <= i < |rows| :: rows[i].v == start + load * rows[i].t as real)
      && rows[0].t <= from && to <= rows[|rows| - 1].t
      && (|rows| >= 3 || rows[1].t == to)
    ensures Energy(c, from, to) == load * (to - from) as real
  {
    hide GetEnergy, Unwrapped, WindowEnergy, Splits;
    var rows := GetEnergy(c, from, to);
    GetEnergyIsWindow(c, from, to);
    LineNeverFalls(rows, load, start);
    NeverFallsClosed(rows, from, to);
    UnwrappedOfLine(rows, from, load, start);
    UnwrappedOfLine(rows, to, load, start);
    Distribute(load, (from - rows[0].t) as real, (to - from) as real);
    assert (from - rows[0].t) as real + (to - from) as real == (to - rows[0].t) as real;
  }

  lemma LineNeverFalls(rows: seq<Reading>, load: real, start: real)
    requires Ordered(rows) && load >= 0.0
    requires forall i | 0 <= i < |rows| :: rows[i].v == start + load * rows[i].t as real
    ensures NeverFalls(rows)
  {
    forall i | 0 <= i < |rows| - 1 ensures rows[i].v <= rows[i + 1].v {
      LineStep(rows[i].t, rows[i + 1].t, load);
    }
  }

  lemma LineStep(t: int, u: int, load: real)
    ensures load * u as real - load * t as real == load * (u - t) as real
    ensures load >= 0.0 && t <= u ==> load * (u - t) as real >= 0.0
  {
    Distribute(load, t as real, (u - t) as real);
    SignOfProduct(load, (u - t) as real);
  }

  lemma UnwrappedOfLine(rs: seq<Reading>, x: int, load: real, start: real)
    requires Ordered(rs) && |rs| > 0 && load >= 0.0
    requires forall i | 0 <= i < |rs| :: rs[i].v == start + load * rs[i].t as real
    requires rs[0].t <= x <= rs[|rs| - 1].t
    ensures Unwrapped(rs, x) == load * (x - rs[0].t) as real
  {
    hide Share, Splits, Gain, IsReset;
    var k := Below(rs, x);
    BelowNeighbours(rs, x);
    if 0 < k {
      UnwrappedAtOfLine(rs, k - 1, load, start);
      hide Ordered;
      ShareOfLine(rs[k - 1], rs[k], x, load, start);
      LineStep(rs[k - 1].t, x, load);
      LineStep(rs[0].t, x, load);
      LineStep(rs[0].t, rs[k - 1].t, load);
    }
  }

  lemma UnwrappedAtOfLine(rs: seq<Reading>, k: nat, load: real, start: real)
    requires Ordered(rs) && k < |rs| && load >= 0.0
    requires forall i | 0 <= i < |rs| :: rs[i].v == start + load * rs[i].t as real
    ensures UnwrappedAt(rs, k) == load * (rs[k].t - rs[0].t) as real
  {
    hide UnwrappedAt, NeverFalls, Ordered;
    LineStep(rs[0].t, rs[k].t, load);
    LineNeverFalls(rs, load, start);
    UnwrappedRising(rs, k);
  }

  lemma UnwrappedRising(rs: seq<Reading>, k: nat)
    requires k < |rs| && NeverFalls(rs)
    ensures UnwrappedAt(rs, k) == rs[k].v - rs[0].v
  {
    UnwrappedNeverFalling(rs, k);
  }

  lemma ShareOfLine(a: Reading, b: Reading, x: int, load: real, start: real)
    requires a.t < b.t && load >= 0.0
    requires a.v == start + load * a.t as real && b.v == start + load * b.t as real
    ensures Share(a, b, x) == load * (x - a.t) as real
  {
    LineStep(a.t, b.t, load);
    assert Gain(a, b) == load * (b.t - a.t) as real;
    Undo(load, (b.t - a.t) as real);
  }

  // ---------------------------------------------------------------------
  // Production partitions
  // ---------------------------------------------------------------------

  lemma {:induction false} TotalConcat(a: seq<Reading>, b: seq<Reading>)
    ensures Total(a + b) == Total(a) + Total(b)
    decreases |b|
  {
    if b == [] {
      assert a + b == a;
    } else {
      var last := |b| - 1;
      assert (a + b)[..|a + b| - 1] == a + b[..last];
      TotalConcat(a, b[..last]);
    }
  }

  // The total is the sum of the values, each counted once.
  lemma TotalIsSum(rows: seq<Reading>, r: Reading)
    ensures Total([]) == 0.0
    ensures Total(rows + [r]) == Total(rows) + r.v
  {
    assert (rows + [r])[..|rows|] == rows;
  }

  // Windows are open on the left and closed on the right, so adjacent ones
  // share no sample and miss none.
  lemma ProductionPartition(c: Column, a: int, b: int, d: int)
    requires a <= b <= d
    ensures GetProduction(c, a, d) == GetProduction(c, a, b) + GetProduction(c, b, d)
    ensures Total(GetProduction(c, a, d))
         == Total(GetProduction(c, a, b)) + Total(GetProduction(c, b, d))
  {
    var left, right := GetProduction(c, a, b), GetProduction(c, b, d);
    var both: seq<Reading> := left + right;
    forall i, j | 0 <= i < j < |both| ensures both[i].t < both[j].t {
      if i < |left| <= j {
        assert left[i] in left && right[j - |left|] in right;
      }
    }
    OrderedUnique(GetProduction(c, a, d), both);
    TotalConcat(left, right);
  }

  // ---------------------------------------------------------------------
  // The weekly KPI as a mediant of the daily ones
  // ---------------------------------------------------------------------

  ghost function Productions(c: Column, cuts: seq<int>): (ps: seq<real>)
    requires |cuts| >= 1
    ensures |ps| == |cuts| - 1
  {
    seq(|cuts| - 1, i requires 0 <= i < |cuts| - 1 => Total(GetProduction(c, cuts[i], cuts[i + 1])))
  }

  lemma {:induction false} ProductionsAddUp(c: Column, cuts: seq<int>)
    requires |cuts| >= 1 && Increasing(cuts)
    ensures Sum(Productions(c, cuts)) == Total(GetProduction(c, cuts[0], cuts[|cuts| - 1]))
  {
    hide Total;
    var n := |cuts| - 1;
    if n == 0 {
      assert ProductionSelection(c, cuts[0], cuts[0]) == {};
      EmptyTotal();
    } else {
      ProductionsAddUp(c, cuts[..n]);
      assert Productions(c, cuts)[..n - 1] == Productions(c, cuts[..n]);
      ProductionPartition(c, cuts[0], cuts[n - 1], cuts[n]);
    }
  }

  lemma EmptyTotal()
    ensures Total([]) == 0.0
  {
  }

  // The quotient of e by p lies in [low, high].
  ghost predicate Between(low: real, e: real, p: real, high: real) {
    p > 0.0 && low * p <= e <= high * p
  }

  // Sums of numerators and denominators stay within bounds that hold for each
  // quotient.
  lemma {:induction false} SumsWithin(es: seq<real>, ps: seq<real>, low: real, high: real)
    requires |es| == |ps| > 0
    requires forall i | 0 <= i < |es| :: Between(low, es[i], ps[i], high)
    ensures Between(low, Sum(es), Sum(ps), high)
  {
    hide Between;
    var n := |es| - 1;
    if n == 0 {
      assert es[..0] == [] && ps[..0] == [];
      assert Sum(es) == es[0];
      assert Sum(ps) == ps[0];
    } else {
      SumsWithin(es[..n], ps[..n], low, high);
      AddBetween(low, Sum(es[..n]), Sum(ps[..n]), es[n], ps[n], high);
    }
  }

  lemma AddBetween(low: real, e: real, p: real, e': real, p': real, high: real)
    requires Between(low, e, p, high) && Between(low, e', p', high)
    ensures Between(low, e + e', p + p', high)
  {
    assert low * (p + p') == low * p + low * p';
    assert high * (p + p') == high * p + high * p';
  }

  function Capped(high: real): real {
    if high <= MAX_KPI then high else MAX_KPI
  }

  lemma RatedBetween(kpi: real, e: real, p: real, low: real, high: real)
    requires p > 0.0 && Rates(kpi, e, p) && kpi != INVALID_KPI && low <= kpi <= high
    ensures Between(low, e, p, Capped(high))
  {
    OrderTimes(low, kpi, p);
    OrderTimes(kpi, Capped(high), p);
  }

  lemma BetweenRated(kpi: real, e: real, p: real, low: real, high: real)
    requires Rates(kpi, e, p) && Between(low, e, p, Capped(high))
    ensures low <= kpi <= high
  {
    hide Capped, Rates;
    CappedIsLower(high);
    OrderTimes(Capped(high), MAX_KPI, p);
    RatedProduct(kpi, e, p);
    OrderTimes(low, kpi, p);
    OrderTimes(kpi, Capped(high), p);
  }

  lemma RatedProduct(kpi: real, e: real, p: real)
    requires p > 0.0 && Rates(kpi, e, p) && e <= MAX_KPI * p
    ensures kpi * p == e
  {
    assert INVALID_KPI * p == -p;
  }

  lemma CappedIsLower(high: real)
    ensures Capped(high) <= high && Capped(high) <= MAX_KPI
  {
  }

  // Each part has a valid KPI in [low, high].
  ghost predicate KpisWithin(energy: Column, production: Column, cuts: seq<int>, low: real, high: real)
    requires Increasing(cuts)
  {
    forall i | 0 <= i < |cuts| - 1 ::
      var kpi := Kpi(energy, production, cuts[i], cuts[i + 1]);
      kpi != INVALID_KPI && low <= kpi <= high
  }

  lemma PartsWithin(energy: Column, production: Column, cuts: seq<int>, low: real, high: real)
    requires IsCuts(energy, cuts)
    requires KpisWithin(energy, production, cuts, low, high)
    ensures forall i | 0 <= i < |cuts| - 1 ::
      Between(low, Energies(energy, cuts)[i], Productions(production, cuts)[i], Capped(high))
  {
    hide Kpi, Energy, Total, Ordered, Lists, Splits, Enough, Rates, Between, Capped;
    var es, ps := Energies(energy, cuts), Productions(production, cuts);
    forall i | 0 <= i < |cuts| - 1 ensures Between(low, es[i], ps[i], Capped(high)) {
      KpiRates(energy, production, cuts[i], cuts[i + 1]);
      RatedBetween(Kpi(energy, production, cuts[i], cuts[i + 1]), es[i], ps[i], low, high);
    }
  }

  lemma ValidPartsAreCuts(energy: Column, production: Column, cuts: seq<int>, low: real, high: real)
    requires |cuts| >= 2 && Increasing(cuts)
    requires KpisWithin(energy, production, cuts, low, high)
    ensures IsCuts(energy, cuts)
  {
    hide GetEnergy, GetProduction, WindowEnergy, Total;
    forall i | 0 <= i < |cuts| - 1 ensures Enough(energy, cuts[i], cuts[i + 1]) {
      assert Kpi(energy, production, cuts[i], cuts[i + 1]) != INVALID_KPI;
    }
  }

  // The parts together have the production of the joined window, and rate
  // within the same bounds.
  lemma PartsTogether(energy: Column, production: Column, cuts: seq<int>, low: real, high: real)
    requires IsCuts(energy, cuts)
    requires KpisWithin(energy, production, cuts, low, high)
    ensures var products := GetProduction(production, cuts[0], cuts[|cuts| - 1]);
      && products != []
      && Between(low, Sum(Energies(energy, cuts)), Total(products), Capped(high))
  {
    hide Kpi, Energy, Ordered, Lists, Splits, Rates, Total, Capped, GetProduction;
    var es, ps := Energies(energy, cuts), Productions(production, cuts);
    PartsWithin(energy, production, cuts, low, high);
    SumsWithin(es, ps, low, Capped(high));
    ProductionsAddUp(production, cuts);
    EmptyTotal();
    assert Sum(ps) > 0.0;
  }

  lemma KpiWithin(energy: Column, production: Column, from: int, to: int, low: real, high: real)
    requires from < to && Enough(energy, from, to) && GetProduction(production, from, to) != []
    requires Between(low, Energy(energy, from, to), Total(GetProduction(production, from, to)), Capped(high))
    ensures low <= Kpi(energy, production, from, to) <= high
  {
    hide Kpi, Energy, Total, GetProduction, GetEnergy, Rates, Capped, Between;
    var e, p := Energy(energy, from, to), Total(GetProduction(production, from, to));
    BetweenIsPositive(low, e, p, Capped(high));
    KpiRates(energy, production, from, to);
    BetweenRated(Kpi(energy, production, from, to), e, p, low, high);
  }

  lemma BetweenIsPositive(low: real, e: real, p: real, high: real)
    requires Between(low, e, p, high)
    ensures p > 0.0
  {
  }

  lemma LessEnergyBetween(e: real, sum: real, p: real, high: real)
    requires 0.0 <= e <= sum && Between(0.0, sum, p, high)
    ensures Between(0.0, e, p, high)
  {
  }

  // If every part has a valid KPI and the cuts are clean, the KPI of the joined
  // window lies between the smallest and the largest of them; so it is valid
  // if they are above -1.
  lemma KpiIsMediant(energy: Column, production: Column, cuts: seq<int>, low: real, high: real)
    requires IsCuts(energy, cuts)
    requires |Joined(energy, cuts)| >= 2 && CleanCuts(energy, cuts)
    requires KpisWithin(energy, production, cuts, low, high)
    ensures low <= Kpi(energy, production, cuts[0], cuts[|cuts| - 1]) <= high
  {
    hide Kpi, Energy, Energies, CleanCuts, Total, Sum, KpisWithin, Between, GetEnergy, GetProduction;
    PartsTogether(energy, production, cuts, low, high);
    Additivity(energy, cuts);
    KpiWithin(energy, production, cuts[0], cuts[|cuts| - 1], low, high);
  }

  // For readings never below zero the upper bound needs no clean cuts:
  // overcounting only makes the parts worse.
  lemma KpiNeverAboveWorst(energy: Column, production: Column, cuts: seq<int>, high: real)
    requires |cuts| >= 2 && Increasing(cuts) && NonNegative(All(energy))
    requires KpisWithin(energy, production, cuts, 0.0, high)
    ensures 0.0 <= Kpi(energy, production, cuts[0], cuts[|cuts| - 1]) <= high
  {
    hide Kpi, Energy, Energies, CleanCuts, Total, Sum, KpisWithin, Between, GetEnergy, GetProduction, NonNegative;
    hide IsCuts;
    var from, to := cuts[0], cuts[|cuts| - 1];
    ValidPartsAreCuts(energy, production, cuts, 0.0, high);
    PartsTogether(energy, production, cuts, 0.0, high);
    AdditivityIff(energy, cuts);
    EnergyNonNegative(energy, from, to);
    LessEnergyBetween(Energy(energy, from, to), Sum(Energies(energy, cuts)),
                      Total(GetProduction(production, from, to)), Capped(high));
    KpiWithin(energy, production, from, to, 0.0, high);
  }

  // calculateDaily and calculateWeekly.
  ghost function DailyKpi(energy: Column, production: Column, tp: int): real {
    Kpi(energy, production, tp - DAY, tp)
  }

  ghost function WeeklyKpi(energy: Column, production: Column, tp: int): real {
    Kpi(energy, production, tp - 7 * DAY, tp)
  }

  ghost function WeekOfDays(tp: int): (cuts: seq<int>)
    ensures |cuts| == 8 && cuts[0] == tp - 7 * DAY && cuts[7] == tp
    ensures Increasing(cuts)
    ensures forall i | 0 <= i < 7 :: cuts[i] == cuts[i + 1] - DAY
  {
    seq(8, i requires 0 <= i < 8 => tp - (7 - i) * DAY)
  }

  // The weekly energy is the sum of its seven dailies when the six cuts
  // between them are clean.
  lemma WeeklyEnergyIsSumOfDailies(c: Column, tp: int)
    requires IsCuts(c, WeekOfDays(tp))
    ensures Enough(c, tp - 7 * DAY, tp) && |Joined(c, WeekOfDays(tp))| >= 2
    ensures CleanCuts(c, WeekOfDays(tp))
        ==> Sum(Energies(c, WeekOfDays(tp))) == Energy(c, tp - 7 * DAY, tp)
  {
    hide Energy, CleanCuts, Sum;
    Additivity(c, WeekOfDays(tp));
  }

  // For readings that are never negative, exactly then.
  lemma WeeklyEnergyIsSumOfDailiesIff(c: Column, tp: int)
    requires IsCuts(c, WeekOfDays(tp)) && NonNegative(All(c))
    ensures Enough(c, tp - 7 * DAY, tp) && |Joined(c, WeekOfDays(tp))| >= 2
    ensures Sum(Energies(c, WeekOfDays(tp))) == Energy(c, tp - 7 * DAY, tp)
       <==> CleanCuts(c, WeekOfDays(tp))
  {
    hide Energy, CleanCuts, Sum;
    AdditivityIff(c, WeekOfDays(tp));
  }

  // The seven daily KPIs before tp are valid and within bounds.
  ghost predicate DailiesWithin(energy: Column, production: Column, tp: int, low: real, high: real) {
    forall i | 0 <= i < 7 ::
      var daily := DailyKpi(energy, production, tp - i * DAY);
      daily != INVALID_KPI && low <= daily <= high
  }

  lemma DailiesAreParts(energy: Column, production: Column, tp: int, low: real, high: real)
    requires DailiesWithin(energy, production, tp, low, high)
    ensures KpisWithin(energy, production, WeekOfDays(tp), low, high)
  {
    hide Kpi;
    var cuts := WeekOfDays(tp);
    forall i | 0 <= i < 7
      ensures var kpi := Kpi(energy, production, cuts[i], cuts[i + 1]);
        kpi != INVALID_KPI && low <= kpi <= high
    {
      assert cuts[i] == cuts[i + 1] - DAY && cuts[i + 1] == tp - (6 - i) * DAY;
      var daily := DailyKpi(energy, production, tp - (6 - i) * DAY);
      assert daily == Kpi(energy, production, cuts[i], cuts[i + 1]);
    }
  }

  lemma WeeklyIsMediantOfDailies(energy: Column, production: Column, tp: int, low: real, high: real)
    requires IsCuts(energy, WeekOfDays(tp))
    requires |Joined(energy, WeekOfDays(tp))| >= 2 && CleanCuts(energy, WeekOfDays(tp))
    requires DailiesWithin(energy, production, tp, low, high)
    ensures low <= WeeklyKpi(energy, production, tp) <= high
  {
    hide Kpi, CleanCuts, DailiesWithin, KpisWithin;
    DailiesAreParts(energy, production, tp, low, high);
    KpiIsMediant(energy, production, WeekOfDays(tp), low, high);
  }

  // A week whose days are all rated is rated, and never above its worst day.
  lemma WeeklyNeverAboveWorstDay(energy: Column, production: Column, tp: int, high: real)
    requires NonNegative(All(energy)) && DailiesWithin(energy, production, tp, 0.0, high)
    ensures 0.0 <= WeeklyKpi(energy, production, tp) <= high
  {
    hide Kpi, DailiesWithin, KpisWithin, NonNegative;
    DailiesAreParts(energy, production, tp, 0.0, high);
    KpiNeverAboveWorst(energy, production, WeekOfDays(tp), high);
  }

  // ---------------------------------------------------------------------
  // Days whose energy is not what the meter gained
  // ---------------------------------------------------------------------

  // A table that has no more rows than the window needs.
  lemma TableIsWindow(c: Column, rs: seq<Reading>, from: int, to: int)
    requires from < to && Lists(rs, c, NotNull(c)) && IsWindow(rs, from, to)
    ensures All(c) == rs && GetEnergy(c, from, to) == rs
    ensures Enough(c, from, to) && Energy(c, from, to) == WindowEnergy(rs, from, to)
    ensures Meter(c, from) == Unwrapped(rs, from) && Meter(c, to) == Unwrapped(rs, to)
  {
    OrderedUnique(All(c), rs);
    WindowIsWhole(rs, from, to);
    hide Unwrapped, WindowEnergy, Splits, Lists, Ordered, Lo, Hi;
    GetEnergyIsSlice(c, from, to);
    assert rs[0..|rs|] == rs;
  }

  lemma WindowIsWhole(rs: seq<Reading>, from: int, to: int)
    requires from < to && IsWindow(rs, from, to)
    ensures Lo(rs, from) == 0 && Hi(rs, to) == |rs|
  {
    hide Splits, Ordered;
    BelowNeighbours(rs, from);
    BelowNeighbours(rs, to + 1);
    BelowSpans(rs, from, to);
  }

  lemma BelowSpans(rs: seq<Reading>, from: int, to: int)
    requires from < to && IsWindow(rs, from, to)
    ensures Below(rs, from) <= 1 && Below(rs, to + 1) >= |rs| - 1
  {
  }

  // The unwrapped meter inside interval k - 1 .. k, and up to the first reading.
  lemma UnwrappedInside(rs: seq<Reading>, x: int, k: nat)
    requires Ordered(rs) && 0 < k < |rs| && rs[k - 1].t < x <= rs[k].t
    ensures Unwrapped(rs, x) == UnwrappedAt(rs, k - 1) + Share(rs[k - 1], rs[k], x)
  {
    hide Share, Splits;
    BelowIs(rs, x, k);
  }

  lemma UnwrappedAtStart(rs: seq<Reading>, x: int)
    requires Ordered(rs) && |rs| > 0 && x <= rs[0].t
    ensures Unwrapped(rs, x) == 0.0
  {
    hide Splits;
    BelowIs(rs, x, 0);
  }

  // One reading at the start of the day and one a day after its end, no reset:
  // the code forgets to clip at the end, and the day counts for two.
  lemma SingleIntervalIsNotClipped()
    ensures var c: Column := map[0 := Some(100.0), 2 * DAY := Some(120.0)];
      && NonNegative(All(c))
      && Enough(c, 0, DAY) && Energy(c, 0, DAY) == 20.0
      && |All(c)| > 0 && Meter(c, DAY) - Meter(c, 0) == 10.0
  {
    var c: Column := map[0 := Some(100.0), 2 * DAY := Some(120.0)];
    var rs := [Reading(0, 100.0), Reading(2 * DAY, 120.0)];
    TableIsWindow(c, rs, 0, DAY);
    hide Lists, Splits, InTimeOrder, Meter, Energy, Unwrapped, GetEnergy;
    UnwrappedAtStart(rs, 0);
    UnwrappedInside(rs, DAY, 1);
    assert UnwrappedAt(rs, 0) == 0.0;
    assert HeadExcess(rs, 0) == 0.0 && TailExcess(rs, DAY) == 10.0;
  }

  // A reset before the start of the day: the whole count since that reset,
  // which may have begun half a day earlier, ends up in the day.
  lemma ResetAtWindowStartIsNotClipped()
    ensures var c: Column := map[DAY / 2 := Some(100.0), 3 * DAY / 2 := Some(10.0), 2 * DAY := Some(12.0)];
      && NonNegative(All(c))
      && Enough(c, DAY, 2 * DAY) && Energy(c, DAY, 2 * DAY) == 12.0
      && |All(c)| > 0 && Meter(c, 2 * DAY) - Meter(c, DAY) == 7.0
  {
    var c: Column := map[DAY / 2 := Some(100.0), 3 * DAY / 2 := Some(10.0), 2 * DAY := Some(12.0)];
    var rs := [Reading(DAY / 2, 100.0), Reading(3 * DAY / 2, 10.0), Reading(2 * DAY, 12.0)];
    TableIsWindow(c, rs, DAY, 2 * DAY);
    hide Lists, Splits, InTimeOrder, Energy, WindowEnergy, Unwrapped, GetEnergy, Share;
    ResetBeforeStart(rs);
  }

  lemma ResetBeforeStart(rs: seq<Reading>)
    requires rs == [Reading(DAY / 2, 100.0), Reading(3 * DAY / 2, 10.0), Reading(2 * DAY, 12.0)]
    ensures IsWindow(rs, DAY, 2 * DAY) && WindowEnergy(rs, DAY, 2 * DAY) == 12.0
    ensures Unwrapped(rs, 2 * DAY) - Unwrapped(rs, DAY) == 7.0
  {
    hide Splits, Unwrapped;
    UnwrappedInside(rs, DAY, 1);
    UnwrappedInside(rs, 2 * DAY, 2);
    assert UnwrappedAt(rs, 0) == 0.0 && UnwrappedAt(rs, 1) == 10.0;
    assert HeadExcess(rs, DAY) == 5.0 && TailExcess(rs, 2 * DAY) == 0.0;
  }

  // A reset after the end of the day: what was counted until the next reading,
  // half a day later, ends up in the day as a whole.
  lemma ResetAtWindowEndIsNotClipped()
    ensures var c: Column := map[DAY := Some(100.0), 3 * DAY / 2 := Some(110.0), 5 * DAY / 2 := Some(10.0)];
      && NonNegative(All(c))
      && Enough(c, DAY, 2 * DAY) && Energy(c, DAY, 2 * DAY) == 20.0
      && |All(c)| > 0 && Meter(c, 2 * DAY) - Meter(c, DAY) == 15.0
  {
    var c: Column := map[DAY := Some(100.0), 3 * DAY / 2 := Some(110.0), 5 * DAY / 2 := Some(10.0)];
    var rs := [Reading(DAY, 100.0), Reading(3 * DAY / 2, 110.0), Reading(5 * DAY / 2, 10.0)];
    TableIsWindow(c, rs, DAY, 2 * DAY);
    hide Lists, Splits, InTimeOrder, Energy, WindowEnergy, Unwrapped, GetEnergy, Share;
    ResetAfterEnd(rs);
  }

  lemma ResetAfterEnd(rs: seq<Reading>)
    requires rs == [Reading(DAY, 100.0), Reading(3 * DAY / 2, 110.0), Reading(5 * DAY / 2, 10.0)]
    ensures IsWindow(rs, DAY, 2 * DAY) && WindowEnergy(rs, DAY, 2 * DAY) == 20.0
    ensures Unwrapped(rs, 2 * DAY) - Unwrapped(rs, DAY) == 15.0
  {
    hide Splits, Unwrapped;
    UnwrappedAtStart(rs, DAY);
    UnwrappedInside(rs, 2 * DAY, 2);
    assert UnwrappedAt(rs, 0) == 0.0 && UnwrappedAt(rs, 1) == 10.0;
    assert HeadExcess(rs, DAY) == 0.0 && TailExcess(rs, 2 * DAY) == 5.0;
  }

  // The converse of the closed form needs a meter that never reads below zero:
  // on this day both branches overcount, by 5 and by -5.
  lemma ExcessesCanCancel()
    ensures var c: Column := map[DAY / 2 := Some(100.0), 3 * DAY / 2 := Some(10.0), 5 * DAY / 2 := Some(-10.0)];
      && Enough(c, DAY, 2 * DAY)
      && HeadOvercounts(GetEnergy(c, DAY, 2 * DAY), DAY)
      && TailOvercounts(GetEnergy(c, DAY, 2 * DAY), 2 * DAY)
      && |All(c)| > 0 && Energy(c, DAY, 2 * DAY) == Meter(c, 2 * DAY) - Meter(c, DAY)
  {
    var c: Column := map[DAY / 2 := Some(100.0), 3 * DAY / 2 := Some(10.0), 5 * DAY / 2 := Some(-10.0)];
    var rs := [Reading(DAY / 2, 100.0), Reading(3 * DAY / 2, 10.0), Reading(5 * DAY / 2, -10.0)];
    TableIsWindow(c, rs, DAY, 2 * DAY);
    hide Lists, Splits, InTimeOrder, Meter, Energy, WindowEnergy, Unwrapped, GetEnergy, Share;
    ExcessesCancel(rs);
  }

  lemma ExcessesCancel(rs: seq<Reading>)
    requires rs == [Reading(DAY / 2, 100.0), Reading(3 * DAY / 2, 10.0), Reading(5 * DAY / 2, -10.0)]
    ensures IsWindow(rs, DAY, 2 * DAY)
    ensures HeadExcess(rs, DAY) == 5.0 && TailExcess(rs, 2 * DAY) == -5.0
    ensures WindowEnergy(rs, DAY, 2 * DAY) == Unwrapped(rs, 2 * DAY) - Unwrapped(rs, DAY)
  {
    hide Unwrapped;
  }

  // A meter that reads ten below zero at the end of the day, and ten products:
  // the quotient is -1 and is taken for an invalid KPI.
  lemma QuotientOfMinusOne()
    ensures var energy: Column := map[0 := Some(0.0), DAY := Some(-10.0)];
            var production: Column := map[DAY := Some(10.0)];
      && Enough(energy, 0, DAY) && Energy(energy, 0, DAY) == -10.0
      && GetProduction(production, 0, DAY) == [Reading(DAY, 10.0)]
      && Total(GetProduction(production, 0, DAY)) == 10.0
      && Kpi(energy, production, 0, DAY) == INVALID_KPI
  {
    var energy: Column := map[0 := Some(0.0), DAY := Some(-10.0)];
    var production: Column := map[DAY := Some(10.0)];
    var rs := [Reading(0, 0.0), Reading(DAY, -10.0)];
    TableIsWindow(energy, rs, 0, DAY);
    OrderedUnique(GetProduction(production, 0, DAY), [Reading(DAY, 10.0)]);
    assert [Reading(DAY, 10.0)][..0] == [];
    hide Lists, Splits, InTimeOrder, GetEnergy, GetProduction, Energy, Kpi;
    UnwrappedAtStart(rs, 0);
    UnwrappedInside(rs, DAY, 1);
    assert UnwrappedAt(rs, 0) == 0.0;
    assert WindowEnergy(rs, 0, DAY) == -10.0;
    KpiRates(energy, production, 0, DAY);
  }

  // ---------------------------------------------------------------------
  // Collinear refinement
  // ---------------------------------------------------------------------

  // A new reading r on the line between readings i and i + 1.
  ghost predicate OnTheLine(rs: seq<Reading>, i: nat, r: Reading) {
    && i + 1 < |rs|
    && rs[i].t < r.t < rs[i + 1].t
    && !IsReset(rs[i], rs[i + 1])
    && r.v == LinInterpolate(r.t, rs[i].t, rs[i + 1].t, rs[i].v, rs[i + 1].v)
  }

  ghost function Insert(rs: seq<Reading>, i: nat, r: Reading): (ins: seq<Reading>)
    requires i < |rs|
    ensures |ins| == |rs| + 1
  {
    rs[..i + 1] + [r] + rs[i + 1..]
  }

  // Splitting an interval splits its share.
  lemma SplitShare(a: Reading, r: Reading, b: Reading, x: int)
    requires a.t < r.t < b.t && !IsReset(a, b)
    requires r.v == LinInterpolate(r.t, a.t, b.t, a.v, b.v)
    ensures !IsReset(a, r) && !IsReset(r, b)
    ensures Share(a, r, x) == Share(a, b, x)
    ensures Gain(a, r) + Share(r, b, x) == Share(a, b, x)
    ensures Gain(a, r) + Gain(r, b) == Gain(a, b)
    ensures Gain(a, b) == 0.0 ==> Gain(a, r) == 0.0 && Gain(r, b) == 0.0
  {
    var p, q := (r.t - a.t) as real, (b.t - r.t) as real;
    assert p + q == (b.t - a.t) as real;
    var slope := (b.v - a.v) / (p + q);
    EvenSplit(b.v - a.v, p, q);
    assert r.v - a.v == slope * p;
    assert b.v - r.v == slope * q;
    SignOfProduct(slope, p);
    SignOfProduct(slope, q);
    Undo(slope, p);
    Undo(slope, q);
    Distribute(slope, p, (x - r.t) as real);
    assert p + (x - r.t) as real == (x - a.t) as real;
  }

  lemma Undo(slope: real, p: real)
    requires p != 0.0
    ensures (slope * p) / p == slope
  {
  }

  lemma Distribute(slope: real, p: real, q: real)
    ensures slope * p + slope * q == slope * (p + q)
  {
  }

  lemma {:induction false} InsertUnwrappedAt(rs: seq<Reading>, i: nat, r: Reading, k: nat)
    requires Ordered(rs) && OnTheLine(rs, i, r) && k < |rs|
    ensures UnwrappedAt(Insert(rs, i, r), if k <= i then k else k + 1) == UnwrappedAt(rs, k)
    ensures k == i ==> UnwrappedAt(Insert(rs, i, r), i + 1) == UnwrappedAt(rs, i) + Gain(rs[i], r)
  {
    var ins := Insert(rs, i, r);
    if k > 0 {
      InsertUnwrappedAt(rs, i, r, k - 1);
      if k == i + 1 {
        SplitShare(rs[i], r, rs[i + 1], r.t);
        assert UnwrappedAt(ins, i + 2) == UnwrappedAt(ins, i + 1) + Gain(r, rs[i + 1]);
      }
    }
  }

  lemma InsertBelow(rs: seq<Reading>, i: nat, r: Reading, x: int)
    requires Ordered(rs) && OnTheLine(rs, i, r)
    ensures Ordered(Insert(rs, i, r))
    ensures var k := Below(rs, x);
      Below(Insert(rs, i, r), x) == if k <= i || (k == i + 1 && x <= r.t) then k else k + 1
  {
    hide IsReset, LinInterpolate, Splits;
    var k := Below(rs, x);
    InsertOrdered(rs, i, r);
    BelowNeighbours(rs, x);
    BelowIs(Insert(rs, i, r), x, if k <= i || (k == i + 1 && x <= r.t) then k else k + 1);
  }

  lemma InsertOrdered(rs: seq<Reading>, i: nat, r: Reading)
    requires Ordered(rs) && i + 1 < |rs| && rs[i].t < r.t < rs[i + 1].t
    ensures Ordered(Insert(rs, i, r))
  {
    assert forall j | 0 <= j <= i :: rs[j].t < r.t;
    assert forall j | i < j < |rs| :: r.t < rs[j].t;
  }

  lemma InsertUnwrapped(rs: seq<Reading>, i: nat, r: Reading, x: int)
    requires Ordered(rs) && OnTheLine(rs, i, r)
    ensures Ordered(Insert(rs, i, r))
    ensures Unwrapped(Insert(rs, i, r), x) == Unwrapped(rs, x)
  {
    InsertBelow(rs, i, r, x);
    hide Share, Gain, Ordered, Lists, Splits;
    var k := Below(rs, x);
    if k > 0 {
      InsertUnwrappedAt(rs, i, r, k - 1);
      SplitShare(rs[i], r, rs[i + 1], x);
    }
  }

  lemma InsertHead(rs: seq<Reading>, i: nat, r: Reading, x: int)
    requires Ordered(rs) && OnTheLine(rs, i, r)
    ensures Ordered(Insert(rs, i, r))
    ensures HeadAt(Insert(rs, i, r), x) == HeadAt(rs, x)
  {
    hide Share, Splits, LinInterpolate;
    InsertBelow(rs, i, r, x);
    SplitShare(rs[i], r, rs[i + 1], x);
  }

  // An interval that did not overcount at x does not start to.
  lemma InsertTail(rs: seq<Reading>, i: nat, r: Reading, x: int, before: bool, after: bool)
    requires Ordered(rs) && OnTheLine(rs, i, r)
    requires after ==> before
    requires TailAt(rs, x, before) == 0.0
    ensures Ordered(Insert(rs, i, r))
    ensures TailAt(Insert(rs, i, r), x, after) == 0.0
  {
    InsertBelow(rs, i, r, x + 1);
    SplitShare(rs[i], r, rs[i + 1], x);
    hide Share, LinInterpolate, Ordered, Lists, Splits;
    if Below(rs, x + 1) == i + 1 && before {
      ShareZeroIff(rs[i], rs[i + 1], x);
      ShareZeroIff(rs[i], r, x);
      ShareZeroIff(r, rs[i + 1], x);
    }
  }

  // Inserting a sample on the line between two readings without a reset leaves
  // the energy of every window that met the closed form unchanged.
  lemma CollinearRefinement(c: Column, i: nat, r: Reading, from: int, to: int)
    requires OnTheLine(All(c), i, r)
    requires from < to && Enough(c, from, to)
    requires !HeadOvercounts(GetEnergy(c, from, to), from)
    requires !TailOvercounts(GetEnergy(c, from, to), to)
    ensures Enough(c[r.t := Some(r.v)], from, to)
    ensures Energy(c[r.t := Some(r.v)], from, to) == Energy(c, from, to)
  {
    hide Energy, HeadAt, TailAt, Unwrapped, Ordered, Lists, Splits, Insert, OnTheLine, LinInterpolate;
    var rs, d := All(c), c[r.t := Some(r.v)];
    AllAfterInsert(c, i, r);
    RowsAfterInsert(c, i, r, from, to);
    EnergyFromMeter(c, from, to);
    EnergyFromMeter(d, from, to);
    InsertUnwrapped(rs, i, r, from);
    InsertUnwrapped(rs, i, r, to);
    InsertHead(rs, i, r, from);
    ExcessAtEnds(c, from, to);
    InsertTail(rs, i, r, to, |GetEnergy(c, from, to)| == 2, |GetEnergy(d, from, to)| == 2);
  }

  lemma RowsAfterInsert(c: Column, i: nat, r: Reading, from: int, to: int)
    requires OnTheLine(All(c), i, r) && from < to
    ensures |GetEnergy(c[r.t := Some(r.v)], from, to)| >= |GetEnergy(c, from, to)|
  {
    hide Insert, OnTheLine, Splits, Lists, Ordered;
    var rs, d := All(c), c[r.t := Some(r.v)];
    AllAfterInsert(c, i, r);
    GetEnergyIsSlice(c, from, to);
    GetEnergyIsSlice(d, from, to);
    BelowMonotone(rs, from, to + 1);
    InsertBelow(rs, i, r, from);
    InsertBelow(rs, i, r, to + 1);
  }

  lemma AllAfterInsert(c: Column, i: nat, r: Reading)
    requires OnTheLine(All(c), i, r)
    ensures All(c[r.t := Some(r.v)]) == Insert(All(c), i, r)
  {
    hide Splits, LinInterpolate, IsReset;
    var rs, d := All(c), c[r.t := Some(r.v)];
    NewTime(c, i, r);
    InsertOrdered(rs, i, r);
    hide Ordered, Insert, OnTheLine;
    forall q ensures q in Insert(rs, i, r) <==> q in All(d) {
      InsertMember(rs, i, r, q);
      MemberAfterUpsert(c, r, q);
    }
    hide Lists;
    OrderedUnique(Insert(rs, i, r), All(d));
  }

  lemma MemberAfterUpsert(c: Column, r: Reading, q: Reading)
    requires r.t !in NotNull(c)
    ensures q in All(c[r.t := Some(r.v)]) <==> q == r || q in All(c)
  {
    hide Ordered;
  }

  lemma NewTime(c: Column, i: nat, r: Reading)
    requires OnTheLine(All(c), i, r)
    ensures r.t !in NotNull(c)
  {
    hide LinInterpolate, IsReset, Lists;
    assert forall j | 0 <= j < |All(c)| :: All(c)[j].t != r.t;
    if r.t in NotNull(c) {
      var k := IndexOf(c, r.t);
      assert false;
    }
  }

  lemma InsertMember(rs: seq<Reading>, i: nat, r: Reading, q: Reading)
    requires i < |rs|
    ensures q in Insert(rs, i, r) <==> q == r || q in rs
  {
    assert rs == rs[..i + 1] + rs[i + 1..];
  }
}
