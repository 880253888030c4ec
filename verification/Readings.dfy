// The two measurement tables and their window queries (database/create_schema.sql).
//
// A table has at most one row per time (the primary key) and a nullable value.
// Times are whole seconds since the epoch, values are exact reals.
module Readings {
  import opened Options
  import opened Sets

  // One row of a query result: the unix time and the value, which the queries
  // never return as NULL.
  datatype Reading = Reading(t: int, v: real)

  type Column = map<int, Option<real>>

  // The table as the upsert functions see it.
  class DataTable {
    var rows: Column

    constructor ()
      ensures rows == map[]
    {
      rows := map[];
    }

    // INSERT ... ON DUPLICATE KEY UPDATE: the row at time t now holds v.
    method Upsert(t: int, v: Option<real>)
      modifies this
      ensures rows == old(rows)[t := v]
    {
      rows := rows[t := v];
    }
  }

  // ---------------------------------------------------------------------
  // Time-ordered listings
  // ---------------------------------------------------------------------

  ghost predicate Ordered(rs: seq<Reading>) {
    forall i, j | 0 <= i < j < |rs| :: rs[i].t < rs[j].t
  }

  ghost predicate NonNegative(rs: seq<Reading>) {
    forall i | 0 <= i < |rs| :: rs[i].v >= 0.0
  }

  predicate IsFirst(t: int, s: set<int>) {
    t in s && forall u | u in s :: t <= u
  }

  lemma {:induction false} FirstExists(s: set<int>)
    requires s != {}
    ensures exists t :: IsFirst(t, s)
    decreases |s|
  {
    var x := Element(s);
    if !IsFirst(x, s) {
      var u :| u in s && u < x;
      var rest := s - {x};
      assert u in rest;
      FirstExists(rest);
      var first :| IsFirst(first, rest);
      assert forall v | v in s :: v == x || v in rest;
      assert IsFirst(first, s);
    }
  }

  // The times whose row is NOT NULL.
  function NotNull(c: Column): set<int> {
    set t | t in c && c[t].Some?
  }

  // rs holds exactly the rows of c at the times in s.
  ghost predicate Lists(rs: seq<Reading>, c: Column, s: set<int>) {
    forall r :: r in rs <==> r.t in s && r.t in c && c[r.t] == Some(r.v)
  }

  // The rows of c at the times in s, in time order.
  function InTimeOrder(c: Column, s: set<int>): (rs: seq<Reading>)
    requires s <= NotNull(c)
    ensures Ordered(rs)
    ensures Lists(rs, c, s)
    decreases |s|
  {
    if s == {} then [] else
      FirstExists(s);
      var t :| IsFirst(t, s);
      [Reading(t, c[t].value)] + InTimeOrder(c, s - {t})
  }

  // The whole table in time order.
  ghost function All(c: Column): (rs: seq<Reading>)
    ensures Ordered(rs) && Lists(rs, c, NotNull(c))
  {
    InTimeOrder(c, NotNull(c))
  }

  // A time-ordered listing is determined by the rows it holds.
  lemma {:induction false} OrderedUnique(a: seq<Reading>, b: seq<Reading>)
    requires Ordered(a) && Ordered(b)
    requires forall r :: r in a <==> r in b
    ensures a == b
  {
    assert a != [] ==> a[0] in b;
    assert b != [] ==> b[0] in a;
    if a != [] {
      assert a[0] in b && b[0] in a;
      assert a[0] == b[0];
      forall r ensures r in a[1..] <==> r in b[1..] {
        assert r in a <==> r == a[0] || r in a[1..];
        assert r in b <==> r == b[0] || r in b[1..];
      }
      OrderedUnique(a[1..], b[1..]);
    }
  }

  // Exactly the first k readings are before time x.
  ghost predicate Splits(rs: seq<Reading>, x: int, k: nat) {
    && k <= |rs|
    && (forall i | 0 <= i < k :: rs[i].t < x)
    && (forall i | k <= i < |rs| :: x <= rs[i].t)
  }

  lemma {:induction false} SplitExists(rs: seq<Reading>, x: int)
    requires Ordered(rs)
    ensures exists k: nat :: Splits(rs, x, k)
  {
    if rs == [] || x <= rs[0].t {
      assert Splits(rs, x, 0);
    } else {
      SplitExists(rs[1..], x);
      var k: nat :| Splits(rs[1..], x, k);
      assert forall i | 0 < i < |rs| :: rs[i] == rs[1..][i - 1];
      assert Splits(rs, x, k + 1);
    }
  }

  // The number of readings before time x, which is also the index of the
  // first reading at or after x.
  ghost function Below(rs: seq<Reading>, x: int): (k: nat)
    requires Ordered(rs)
    ensures k <= |rs| && Splits(rs, x, k)
  {
    SplitExists(rs, x);
    var k: nat :| Splits(rs, x, k);
    k
  }

  // Its two neighbours determine it.
  lemma BelowIs(rs: seq<Reading>, x: int, k: nat)
    requires Ordered(rs) && k <= |rs|
    requires 0 < k ==> rs[k - 1].t < x
    requires k < |rs| ==> x <= rs[k].t
    ensures Below(rs, x) == k
  {
    var b := Below(rs, x);
    assert k < |rs| ==> x <= rs[k].t;
    assert b < |rs| ==> x <= rs[b].t;
  }

  lemma BelowNeighbours(rs: seq<Reading>, x: int)
    requires Ordered(rs)
    ensures 0 < Below(rs, x) ==> rs[Below(rs, x) - 1].t < x
    ensures Below(rs, x) < |rs| ==> x <= rs[Below(rs, x)].t
  {
  }

  // ---------------------------------------------------------------------
  // get_energy and get_production
  // ---------------------------------------------------------------------

  // SELECT ... WHERE time < from ORDER BY time DESC LIMIT 1
  function LastBefore(c: Column, from: int): set<int> {
    set t | t in NotNull(c) && t < from && forall u | u in NotNull(c) && u < from :: u <= t
  }

  function Within(c: Column, from: int, to: int): set<int> {
    set t | t in NotNull(c) && from <= t <= to
  }

  // SELECT ... WHERE time > to ORDER BY time ASC LIMIT 1
  function FirstAfter(c: Column, to: int): set<int> {
    set t | t in NotNull(c) && to < t && forall u | u in NotNull(c) && to < u :: t <= u
  }

  function EnergySelection(c: Column, from: int, to: int): (s: set<int>)
    ensures s <= NotNull(c)
  {
    LastBefore(c, from) + Within(c, from, to) + FirstAfter(c, to)
  }

  function ProductionSelection(c: Column, from: int, to: int): (s: set<int>)
    ensures s <= NotNull(c)
  {
    set t | t in NotNull(c) && from < t <= to
  }

  function GetEnergy(c: Column, from: int, to: int): seq<Reading> {
    InTimeOrder(c, EnergySelection(c, from, to))
  }

  function GetProduction(c: Column, from: int, to: int): seq<Reading> {
    InTimeOrder(c, ProductionSelection(c, from, to))
  }

  // The rows of the two queries, in time order: the non-null ones of the window
  // and, for the energy, the last one before it and the first one after it.
  lemma EnergyRows(c: Column, from: int, to: int, r: Reading)
    ensures r in GetEnergy(c, from, to)
       <==> && r.t in c && c[r.t] == Some(r.v)
            && (|| from <= r.t <= to
                || (r.t < from && forall u | u in c && c[u].Some? && u < from :: u <= r.t)
                || (to < r.t && forall u | u in c && c[u].Some? && to < u :: r.t <= u))
    ensures forall i, j | 0 <= i < j < |GetEnergy(c, from, to)| ::
      GetEnergy(c, from, to)[i].t < GetEnergy(c, from, to)[j].t
  {
    assert forall u :: u in NotNull(c) <==> u in c && c[u].Some?;
    assert r in GetEnergy(c, from, to)
      <==> r.t in EnergySelection(c, from, to) && r.t in c && c[r.t] == Some(r.v);
  }

  lemma ProductionRows(c: Column, from: int, to: int, r: Reading)
    ensures r in GetProduction(c, from, to) <==> r.t in c && c[r.t] == Some(r.v) && from < r.t <= to
    ensures forall i, j | 0 <= i < j < |GetProduction(c, from, to)| ::
      GetProduction(c, from, to)[i].t < GetProduction(c, from, to)[j].t
  {
    assert r in GetProduction(c, from, to)
      <==> r.t in ProductionSelection(c, from, to) && r.t in c && c[r.t] == Some(r.v);
  }

  // Where the window's rows begin and end in the whole table: one reading
  // more than the window on either side, when there is one.
  ghost function Lo(rs: seq<Reading>, from: int): (k: nat)
    requires Ordered(rs)
    ensures k <= |rs|
  {
    if Below(rs, from) == 0 then 0 else Below(rs, from) - 1
  }

  ghost function Hi(rs: seq<Reading>, to: int): (k: nat)
    requires Ordered(rs)
    ensures k <= |rs|
  {
    if Below(rs, to + 1) == |rs| then |rs| else Below(rs, to + 1) + 1
  }

  // The three-way UNION is one contiguous slice of the table.
  lemma GetEnergyIsSlice(c: Column, from: int, to: int)
    requires from <= to
    ensures Lo(All(c), from) <= Hi(All(c), to)
    ensures GetEnergy(c, from, to) == All(c)[Lo(All(c), from)..Hi(All(c), to)]
  {
    var rs := All(c);
    var lo, hi := Lo(rs, from), Hi(rs, to);
    BelowMonotone(rs, from, to + 1);
    var slice := rs[lo..hi];
    assert Ordered(slice);
    forall r ensures r in slice <==> r in GetEnergy(c, from, to) {
      if r in slice || r in GetEnergy(c, from, to) {
        assert r in rs;
        var i :| 0 <= i < |rs| && rs[i] == r;
        SelectedIndex(c, from, to, i);
        SliceMember(rs, lo, hi, i);
      }
    }
    OrderedUnique(slice, GetEnergy(c, from, to));
  }

  lemma BelowMonotone(rs: seq<Reading>, x: int, y: int)
    requires Ordered(rs) && x <= y
    ensures Below(rs, x) <= Below(rs, y)
  {
    var b := Below(rs, y);
    assert b < |rs| ==> y <= rs[b].t;
  }

  lemma SliceMember(rs: seq<Reading>, lo: nat, hi: nat, i: nat)
    requires Ordered(rs) && lo <= hi <= |rs| && i < |rs|
    ensures rs[i] in rs[lo..hi] <==> lo <= i < hi
  {
    if lo <= i < hi {
      assert rs[lo..hi][i - lo] == rs[i];
    }
  }

  lemma SelectedIndex(c: Column, from: int, to: int, i: nat)
    requires from <= to && i < |All(c)|
    ensures All(c)[i].t in EnergySelection(c, from, to) <==> Lo(All(c), from) <= i < Hi(All(c), to)
  {
    assert All(c)[i] in All(c);
    LastBeforeIndex(c, from, i);
    FirstAfterIndex(c, to, i);
  }

  lemma IndexOf(c: Column, t: int) returns (i: nat)
    requires t in NotNull(c)
    ensures i < |All(c)| && All(c)[i].t == t
  {
    assert Reading(t, c[t].value) in All(c);
    i :| 0 <= i < |All(c)| && All(c)[i] == Reading(t, c[t].value);
  }

  lemma LastBeforeIndex(c: Column, from: int, i: nat)
    requires i < |All(c)|
    ensures All(c)[i].t in LastBefore(c, from) <==> i + 1 == Below(All(c), from)
  {
    var rs := All(c);
    var b := Below(rs, from);
    assert rs[i] in rs;
    if i + 1 < b {
      assert rs[b - 1] in rs;
    } else if i + 1 == b {
      forall u | u in NotNull(c) && u < from ensures u <= rs[i].t {
        var k := IndexOf(c, u);
      }
    }
  }

  lemma FirstAfterIndex(c: Column, to: int, i: nat)
    requires i < |All(c)|
    ensures All(c)[i].t in FirstAfter(c, to) <==> i == Below(All(c), to + 1)
  {
    var rs := All(c);
    var a := Below(rs, to + 1);
    assert rs[i] in rs;
    if a < i {
      assert rs[a] in rs;
    } else if i == a {
      forall u | u in NotNull(c) && to < u ensures rs[i].t <= u {
        var k := IndexOf(c, u);
      }
    }
  }

  // The shape the integration loop relies on: only the first row can lie
  // before the window, only the last one after it.
  ghost predicate IsWindow(rows: seq<Reading>, from: int, to: int) {
    && Ordered(rows)
    && |rows| >= 2
    && from <= rows[1].t
    && rows[|rows| - 2].t <= to
  }

  lemma GetEnergyIsWindow(c: Column, from: int, to: int)
    requires from <= to && |GetEnergy(c, from, to)| >= 2
    ensures IsWindow(GetEnergy(c, from, to), from, to)
  {
    GetEnergyIsSlice(c, from, to);
  }

  // ---------------------------------------------------------------------
  // Which later changes can be seen through a window
  // ---------------------------------------------------------------------

  ghost predicate AgreeUpTo(c: Column, d: Column, s: int) {
    forall t | t <= s :: (t in c <==> t in d) && (t in c ==> c[t] == d[t])
  }

  ghost predicate HasReadingAfter(c: Column, to: int) {
    exists t :: t in NotNull(c) && to < t
  }

  // The first reading after a window.
  ghost function NextReading(c: Column, to: int): (b: Reading)
    requires HasReadingAfter(c, to)
    ensures to < b.t && b.t in NotNull(c) && c[b.t] == Some(b.v)
    ensures FirstAfter(c, to) == {b.t}
  {
    var after := set t | t in NotNull(c) && to < t;
    assert after != {} by {
      var some :| some in NotNull(c) && to < some;
      assert some in after;
    }
    FirstExists(after);
    var t :| IsFirst(t, after);
    assert forall u | u in NotNull(c) && to < u :: u in after;
    Reading(t, c[t].value)
  }

  // Everything d adds to c lies later than every row of c.
  ghost predicate ExtendsLater(c: Column, d: Column) {
    && (forall t | t in c :: t in d && d[t] == c[t])
    && (forall t, u | t in c && u in d && u !in c :: t < u)
  }

  // Rows later than `to` never reach a production window.
  lemma ProductionStable(c: Column, d: Column, from: int, to: int)
    requires AgreeUpTo(c, d, to)
    ensures GetProduction(c, from, to) == GetProduction(d, from, to)
  {
    OrderedUnique(GetProduction(c, from, to), GetProduction(d, from, to));
  }

  // Data loaded later changes the rows of an energy window exactly when it
  // brings the first reading after the window.
  lemma EnergyStableIff(c: Column, d: Column, from: int, to: int)
    requires from <= to && ExtendsLater(c, d) && AgreeUpTo(c, d, to)
    ensures GetEnergy(c, from, to) == GetEnergy(d, from, to)
       <==> (HasReadingAfter(c, to) || !HasReadingAfter(d, to))
  {
    assert forall t | t <= to :: t in NotNull(c) <==> t in NotNull(d);
    assert LastBefore(c, from) == LastBefore(d, from) by {
      forall t ensures t in LastBefore(c, from) <==> t in LastBefore(d, from) {
      }
    }
    assert Within(c, from, to) == Within(d, from, to);
    if HasReadingAfter(c, to) {
      var s :| s in NotNull(c) && to < s;
      assert forall t | t in NotNull(c) :: t in NotNull(d);
      assert forall t | t in NotNull(d) && t !in NotNull(c) :: s < t;
      assert FirstAfter(c, to) == FirstAfter(d, to) by {
        forall t ensures t in FirstAfter(c, to) <==> t in FirstAfter(d, to) {
        }
      }
      OrderedUnique(GetEnergy(c, from, to), GetEnergy(d, from, to));
    } else if !HasReadingAfter(d, to) {
      OrderedUnique(GetEnergy(c, from, to), GetEnergy(d, from, to));
    } else {
      var next := NextReading(d, to);
      var s := next.t;
      assert s in FirstAfter(d, to);
      assert next in GetEnergy(d, from, to);
      assert s !in NotNull(c);
      assert next !in GetEnergy(c, from, to);
    }
  }
}
