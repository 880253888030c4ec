// The data acquisition object of Daq.cpp: a cursor over recorded samples that
// the simulated clock drives, and the batch insert with its statistics.
module Replay {
  import opened Options
  import opened Readings

  datatype Sample = Sample(tp: int, val: Option<real>)

  // ---------------------------------------------------------------------
  // Statistics of the inserts (common.h)
  // ---------------------------------------------------------------------

  datatype Statistics = Statistics(
    operations: nat,
    exceptions: nat,
    acquired: nat,
    acquireFailed: nat,
    reused: nat,
    toWrite: nat,
    written: nat,
    writeFailed: nat)

  const ZERO := Statistics(0, 0, 0, 0, 0, 0, 0, 0)

  // One query: whether it succeeds, the statement handle it leaves behind
  // (0 is the null handle) and the handles the session knew before it.
  datatype Query = Query(ok: bool, handle: nat, known: set<nat>)

  // What the database does during one insert: whether the pool hands out a
  // connection, and the outcome of the query for each record.
  datatype Database = Database(acquired: bool, query: int -> Query)

  // A session never knows a null handle.
  ghost predicate Plausible(db: Database) {
    forall i :: 0 !in db.query(i).known
  }

  // The counters and the statement handle after the first n queries.
  datatype Tally = Tally(handle: nat, stored: nat, failed: nat, reused: nat)

  ghost function TallyOf(db: Database, n: nat): Tally {
    if n == 0 then Tally(0, 0, 0, 0) else
      var t, q := TallyOf(db, n - 1), db.query(n - 1);
      // dbm prepares a statement once and keeps its handle
      var handle := if t.handle == 0 then q.handle else t.handle;
      if !q.ok then Tally(handle, t.stored, t.failed + 1, t.reused)
      else Tally(handle, t.stored + 1, t.failed,
                 if t.handle == 0 && handle in q.known then t.reused + 1 else t.reused)
  }

  // A batch reuses a prepared statement at most once, and only if it wrote.
  lemma {:induction false} TallyAddsUp(db: Database, n: nat)
    requires Plausible(db)
    ensures TallyOf(db, n).stored + TallyOf(db, n).failed == n
    ensures TallyOf(db, n).reused <= 1
    ensures TallyOf(db, n).reused <= TallyOf(db, n).stored
    ensures TallyOf(db, n).reused == 1 ==> TallyOf(db, n).handle != 0
  {
    if n > 0 {
      TallyAddsUp(db, n - 1);
    }
  }

  // The statistics after one insert of n records.
  ghost function Counted(stat: Statistics, n: nat, db: Database): Statistics {
    if !db.acquired then
      stat.(operations := stat.operations + 1, toWrite := stat.toWrite + n,
            acquireFailed := stat.acquireFailed + 1, exceptions := stat.exceptions + 1)
    else
      var t := TallyOf(db, n);
      stat.(operations := stat.operations + 1, toWrite := stat.toWrite + n,
            acquired := stat.acquired + 1, exceptions := stat.exceptions + t.failed,
            reused := stat.reused + t.reused,
            written := stat.written + t.stored, writeFailed := stat.writeFailed + t.failed)
  }

  datatype Insert = Insert(size: nat, db: Database)

  ghost function CountedAll(inserts: seq<Insert>): Statistics {
    if inserts == [] then ZERO else
      var last := inserts[|inserts| - 1];
      Counted(CountedAll(inserts[..|inserts| - 1]), last.size, last.db)
  }

  // Records whose batch never got a connection.
  ghost function Abandoned(inserts: seq<Insert>): nat {
    if inserts == [] then 0 else
      var last := inserts[|inserts| - 1];
      Abandoned(inserts[..|inserts| - 1]) + if last.db.acquired then 0 else last.size
  }

  ghost predicate Conserved(stat: Statistics, abandoned: nat) {
    && stat.operations == stat.acquired + stat.acquireFailed
    && stat.toWrite == stat.written + stat.writeFailed + abandoned
    && stat.exceptions == stat.writeFailed + stat.acquireFailed
    && stat.reused <= stat.written
    && stat.reused <= stat.acquired
  }

  // Over any run of inserts since the last reset nothing is lost or counted twice.
  lemma {:induction false} StatisticsConserved(inserts: seq<Insert>)
    requires forall i | 0 <= i < |inserts| :: Plausible(inserts[i].db)
    ensures CountedAll(inserts).operations == |inserts|
    ensures Conserved(CountedAll(inserts), Abandoned(inserts))
  {
    if inserts != [] {
      var last := inserts[|inserts| - 1];
      StatisticsConserved(inserts[..|inserts| - 1]);
      TallyAddsUp(last.db, last.size);
    }
  }

  // ---------------------------------------------------------------------
  // The effect of an insert on the table
  // ---------------------------------------------------------------------

  // The records of a batch of n that do not reach the table.
  ghost function Lost(db: Database, n: nat): set<int> {
    set i | 0 <= i < n && (!db.acquired || !db.query(i).ok)
  }

  // The table after upserting the samples of a batch, in order, except the lost ones.
  ghost function Store(c: Column, batch: seq<Sample>, lost: set<int>): Column {
    if batch == [] then c else
      var n := |batch| - 1;
      var before := Store(c, batch[..n], lost);
      if n in lost then before else before[batch[n].tp := batch[n].val]
  }

  lemma {:induction false} StoreConcat(c: Column, a: seq<Sample>, b: seq<Sample>)
    ensures Store(Store(c, a, {}), b, {}) == Store(c, a + b, {})
    decreases |b|
  {
    if b == [] {
      assert a + b == a;
    } else {
      var n := |b| - 1;
      assert (a + b)[..|a + b| - 1] == a + b[..n];
      StoreConcat(c, a, b[..n]);
    }
  }

  // The record whose value a time ends up with: the last of the batch for that
  // time that is not lost.
  ghost predicate Decides(batch: seq<Sample>, lost: set<int>, t: int, i: nat) {
    && i < |batch| && batch[i].tp == t && i !in lost
    && forall j | i < j < |batch| :: batch[j].tp != t || j in lost
  }

  // Its value is stored, NULL included.
  lemma {:induction false} StoreDecides(c: Column, batch: seq<Sample>, lost: set<int>, t: int, i: nat)
    requires Decides(batch, lost, t, i)
    ensures t in Store(c, batch, lost) && Store(c, batch, lost)[t] == batch[i].val
  {
    var n := |batch| - 1;
    if i < n {
      StoreDecides(c, batch[..n], lost, t, i);
      assert batch[n].tp != t || n in lost;
    }
  }

  // Any other row stays as it was.
  lemma {:induction false} StoreKeeps(c: Column, batch: seq<Sample>, lost: set<int>, t: int)
    requires forall i | 0 <= i < |batch| :: batch[i].tp != t || i in lost
    ensures t in Store(c, batch, lost) <==> t in c
    ensures t in c ==> Store(c, batch, lost)[t] == c[t]
  {
    if batch != [] {
      var n := |batch| - 1;
      StoreKeeps(c, batch[..n], lost, t);
      assert batch[n].tp != t || n in lost;
    }
  }

  // So, in a batch of distinct times, each sample whose query succeeds is in
  // the table afterwards and each other row is what it was.
  lemma StoreOfDistinct(c: Column, batch: seq<Sample>, db: Database, i: nat)
    requires i < |batch| && forall j, k | 0 <= j < k < |batch| :: batch[j].tp != batch[k].tp
    ensures var d := Store(c, batch, Lost(db, |batch|));
      if db.acquired && db.query(i).ok
      then batch[i].tp in d && d[batch[i].tp] == batch[i].val
      else (batch[i].tp in d <==> batch[i].tp in c) && (batch[i].tp in c ==> d[batch[i].tp] == c[batch[i].tp])
  {
    hide Store;
    if db.acquired && db.query(i).ok {
      StoreDecides(c, batch, Lost(db, |batch|), batch[i].tp, i);
    } else {
      StoreKeeps(c, batch, Lost(db, |batch|), batch[i].tp);
    }
  }

  lemma {:induction false} StoreNothing(c: Column, batch: seq<Sample>, lost: set<int>)
    requires forall i | 0 <= i < |batch| :: i in lost
    ensures Store(c, batch, lost) == c
  {
    if batch != [] {
      StoreNothing(c, batch[..|batch| - 1], lost);
    }
  }

  // ---------------------------------------------------------------------
  // What the statistics say about the table
  // ---------------------------------------------------------------------

  // With a connection, exactly the lost records are counted as failed.
  lemma {:induction false} FailedAreLost(db: Database, n: nat)
    requires db.acquired
    ensures TallyOf(db, n).failed == |Lost(db, n)| <= n
    ensures TallyOf(db, n).stored == n - |Lost(db, n)|
  {
    if n == 0 {
      assert Lost(db, 0) == {};
    } else {
      FailedAreLost(db, n - 1);
      if db.query(n - 1).ok {
        assert Lost(db, n) == Lost(db, n - 1);
      } else {
        assert Lost(db, n) == Lost(db, n - 1) + {n - 1};
        assert n - 1 !in Lost(db, n - 1);
      }
    }
  }

  // The query that reuses a prepared statement: it succeeds, none before it left
  // a handle, and the session knew its handle.
  ghost predicate Reuses(db: Database, i: nat) {
    && db.query(i).ok && db.query(i).handle in db.query(i).known
    && forall j | 0 <= j < i :: db.query(j).handle == 0
  }

  lemma {:induction false} ReusedIff(db: Database, n: nat)
    requires Plausible(db)
    ensures TallyOf(db, n).reused == if exists i :: 0 <= i < n && Reuses(db, i) then 1 else 0
    ensures TallyOf(db, n).handle == 0 <==> forall j | 0 <= j < n :: db.query(j).handle == 0
  {
    if n > 0 {
      ReusedIff(db, n - 1);
      TallyAddsUp(db, n - 1);
      if exists i :: 0 <= i < n - 1 && Reuses(db, i) {
        var i :| 0 <= i < n - 1 && Reuses(db, i);
        assert db.query(i).handle != 0;
        assert 0 <= i < n && Reuses(db, i);
        assert !Reuses(db, n - 1);
      } else if Reuses(db, n - 1) {
        assert 0 <= n - 1 < n && Reuses(db, n - 1);
      }
    }
  }

  // What one insert reports: with a connection the records whose query failed
  // are failures and exceptions and the others are written; without one the
  // batch is a single exception.
  lemma CountedIsOutcome(stat: Statistics, n: nat, db: Database)
    requires Plausible(db)
    ensures var t := Counted(stat, n, db);
            var failed := |set i | 0 <= i < n && !db.query(i).ok|;
            var reuses := if exists i :: 0 <= i < n && Reuses(db, i) then 1 else 0;
      && failed <= n
      && t == if db.acquired
         then Statistics(stat.operations + 1, stat.exceptions + failed, stat.acquired + 1, stat.acquireFailed,
                         stat.reused + reuses, stat.toWrite + n, stat.written + (n - failed),
                         stat.writeFailed + failed)
         else stat.(operations := stat.operations + 1, exceptions := stat.exceptions + 1,
                    acquireFailed := stat.acquireFailed + 1, toWrite := stat.toWrite + n)
  {
    var withConnection := db.(acquired := true);
    FailedAreLost(withConnection, n);
    assert Lost(withConnection, n) == set i | 0 <= i < n && !db.query(i).ok;
    if db.acquired {
      assert withConnection == db;
      ReusedIff(db, n);
    }
  }

  // ---------------------------------------------------------------------
  // The cursor
  // ---------------------------------------------------------------------

  // Where the loop of pingSlot stops.
  ghost function Advance(data: seq<Sample>, at: nat, tp: int): (to: nat)
    requires at <= |data|
    ensures at <= to <= |data|
    ensures forall i | at <= i < to :: data[i].tp <= tp
    ensures to < |data| ==> tp < data[to].tp
    decreases |data| - at
  {
    if at < |data| && data[at].tp <= tp then Advance(data, at + 1, tp) else at
  }

  // Where the loop of resetIterator stops.
  ghost function FirstNotBefore(data: seq<Sample>, tp: int): (at: nat)
    ensures at <= |data|
    ensures forall i | 0 <= i < at :: data[i].tp < tp
    ensures at < |data| ==> tp <= data[at].tp
  {
    Advance(data, 0, tp - 1)
  }

  function Reversed(data: seq<Sample>): (r: seq<Sample>)
    ensures |r| == |data|
    ensures forall i | 0 <= i < |data| :: r[i] == data[|data| - 1 - i]
  {
    seq(|data|, i requires 0 <= i < |data| => data[|data| - 1 - i])
  }

  class Daq {
    const data: seq<Sample>
    const table: DataTable
    var cursor: nat
    var stat: Statistics

    ghost predicate Valid()
      reads this
    {
      cursor <= |data|
    }

    // The file lists the newest sample first; getData turns it round.
    constructor (lines: seq<Sample>, table: DataTable)
      ensures Valid() && data == Reversed(lines) && this.table == table
      ensures cursor == 0 && stat == ZERO
    {
      data := Reversed(lines);
      this.table := table;
      cursor := 0;
      stat := ZERO;
    }

    method ResetStatistics()
      modifies this`stat
      ensures stat == ZERO == Statistics(0, 0, 0, 0, 0, 0, 0, 0)
    {
      stat := ZERO;
    }

    // Fails, with the cursor at the end, when no sample is left to replay.
    method ResetIterator(tp: int) returns (ok: bool)
      modifies this`cursor
      ensures Valid()
      ensures cursor == FirstNotBefore(data, tp)
      ensures ok <==> exists i :: 0 <= i < |data| && tp <= data[i].tp
    {
      cursor := 0;
      while cursor < |data| && tp > data[cursor].tp
        invariant cursor <= |data|
        invariant forall i | 0 <= i < cursor :: data[i].tp < tp
        invariant Advance(data, cursor, tp - 1) == Advance(data, 0, tp - 1)
      {
        cursor := cursor + 1;
      }
      ok := cursor < |data|;
    }

    // Offers every sample up to tp that was not offered before, once.
    method PingSlot(tp: int, db: Database) returns (batch: seq<Sample>)
      requires Valid()
      modifies this, table
      ensures Valid()
      ensures cursor == Advance(data, old(cursor), tp)
      ensures batch == data[old(cursor)..cursor]
      ensures table.rows == Store(old(table.rows), batch, Lost(db, |batch|))
      ensures stat == if batch == [] then old(stat) else Counted(old(stat), |batch|, db)
    {
      batch := [];
      ghost var first := cursor;
      while cursor < |data| && tp >= data[cursor].tp
        invariant first <= cursor <= |data|
        invariant batch == data[first..cursor]
        invariant Advance(data, cursor, tp) == Advance(data, first, tp)
        invariant table.rows == old(table.rows) && stat == old(stat)
        decreases |data| - cursor
      {
        batch := batch + [data[cursor]];
        cursor := cursor + 1;
      }
      if batch != [] {
        InsertData(batch, db);
      }
    }

    method InsertData(pts: seq<Sample>, db: Database)
      modifies this`stat, table
      ensures table.rows == Store(old(table.rows), pts, Lost(db, |pts|))
      ensures stat == Counted(old(stat), |pts|, db)
    {
      stat := stat.(operations := stat.operations + 1, toWrite := stat.toWrite + |pts|);
      if !db.acquired {
        // the scope guard of the failed acquire, then the handler
        stat := stat.(acquireFailed := stat.acquireFailed + 1);
        stat := stat.(exceptions := stat.exceptions + 1);
        StoreNothing(table.rows, pts, Lost(db, |pts|));
        return;
      }
      stat := stat.(acquired := stat.acquired + 1);

      ghost var before := stat;
      ghost var lost := Lost(db, |pts|);
      var count: nat, countFailed: nat, handle: nat := 0, 0, 0;
      for i := 0 to |pts|
        invariant before.reused <= stat.reused
        invariant TallyOf(db, i) == Tally(handle, count, countFailed, stat.reused - before.reused)
        invariant stat == before.(reused := stat.reused, exceptions := before.exceptions + countFailed)
        invariant table.rows == Store(old(table.rows), pts[..i], lost)
      {
        assert pts[..i + 1][..i] == pts[..i];
        var query := db.query(i);
        var wasNull := handle == 0;
        if wasNull {
          handle := query.handle;
        }
        if query.ok {
          table.Upsert(pts[i].tp, pts[i].val);
          if wasNull && handle in query.known {
            stat := stat.(reused := stat.reused + 1);
          }
          count := count + 1;
        } else {
          countFailed := countFailed + 1;
          stat := stat.(exceptions := stat.exceptions + 1);
        }
      }
      assert pts[..|pts|] == pts;
      stat := stat.(written := stat.written + count);
      stat := stat.(writeFailed := stat.writeFailed + countFailed);
    }
  }

  // ---------------------------------------------------------------------
  // Exactly-once replay
  // ---------------------------------------------------------------------

  ghost predicate Sorted(data: seq<Sample>) {
    forall i, j | 0 <= i <= j < |data| :: data[i].tp <= data[j].tp
  }

  lemma NewestFirstReversedIsSorted(lines: seq<Sample>)
    requires forall i, j | 0 <= i <= j < |lines| :: lines[j].tp <= lines[i].tp
    ensures Sorted(Reversed(lines))
  {
  }

  // The cursor after a sequence of pings.
  ghost function Cursor(data: seq<Sample>, at: nat, pings: seq<int>): (to: nat)
    requires at <= |data|
    ensures at <= to <= |data|
  {
    if pings == [] then at
    else Advance(data, Cursor(data, at, pings[..|pings| - 1]), pings[|pings| - 1])
  }

  // What each ping offers.
  ghost function Batches(data: seq<Sample>, at: nat, pings: seq<int>): seq<seq<Sample>>
    requires at <= |data|
  {
    if pings == [] then [] else
      var earlier := pings[..|pings| - 1];
      Batches(data, at, earlier) + [data[Cursor(data, at, earlier)..Cursor(data, at, pings)]]
  }

  ghost function Flatten(batches: seq<seq<Sample>>): seq<Sample> {
    if batches == [] then []
    else Flatten(batches[..|batches| - 1]) + batches[|batches| - 1]
  }

  // Whatever the data and the pings, the batches are one contiguous slice.
  lemma {:induction false} BatchesAreOneSlice(data: seq<Sample>, at: nat, pings: seq<int>)
    requires at <= |data|
    ensures Flatten(Batches(data, at, pings)) == data[at..Cursor(data, at, pings)]
  {
    if pings != [] {
      var earlier := pings[..|pings| - 1];
      BatchesAreOneSlice(data, at, earlier);
      var all := Batches(data, at, pings);
      assert all[..|all| - 1] == Batches(data, at, earlier);
    }
  }

  // The samples with lo <= tp <= hi, in recorded order.
  ghost function Select(data: seq<Sample>, lo: int, hi: int): seq<Sample> {
    if data == [] then [] else
      var n := |data| - 1;
      Select(data[..n], lo, hi) + if lo <= data[n].tp <= hi then [data[n]] else []
  }

  lemma {:induction false} SelectIsSlice(data: seq<Sample>, lo: int, hi: int, from: nat, to: nat)
    requires from <= to <= |data|
    requires forall i | 0 <= i < from :: data[i].tp < lo
    requires forall i | from <= i < to :: lo <= data[i].tp <= hi
    requires forall i | to <= i < |data| :: data[i].tp < lo || hi < data[i].tp
    ensures Select(data, lo, hi) == data[from..to]
  {
    if data != [] {
      var n := |data| - 1;
      assert Select(data, lo, hi) == Select(data[..n], lo, hi) + if lo <= data[n].tp <= hi then [data[n]] else [];
      hide Select;
      if to < |data| {
        SelectIsSlice(data[..n], lo, hi, from, to);
        assert data[..n][from..to] == data[from..to];
      } else if from < |data| {
        SelectIsSlice(data[..n], lo, hi, from, n);
        assert data[..n][from..n] + [data[n]] == data[from..to];
      } else {
        SelectIsSlice(data[..n], lo, hi, n, n);
      }
    }
  }

  ghost function Latest(pings: seq<int>): int
    requires pings != []
  {
    var last := pings[|pings| - 1];
    if |pings| == 1 then last
    else if Latest(pings[..|pings| - 1]) < last then last else Latest(pings[..|pings| - 1])
  }

  // On sorted data the cursor remembers only the latest ping.
  lemma {:induction false} CursorOfLatest(data: seq<Sample>, at: nat, pings: seq<int>)
    requires Sorted(data) && at <= |data| && pings != []
    ensures Cursor(data, at, pings) == Advance(data, at, Latest(pings))
  {
    var earlier := pings[..|pings| - 1];
    if |pings| == 1 {
      assert earlier == [];
    } else {
      CursorOfLatest(data, at, earlier);
      AdvanceTwice(data, at, Latest(earlier), pings[|pings| - 1]);
    }
  }

  lemma AdvanceIs(data: seq<Sample>, at: nat, tp: int, to: nat)
    requires Sorted(data) && at <= to <= |data|
    requires forall i | at <= i < to :: data[i].tp <= tp
    requires to < |data| ==> tp < data[to].tp
    ensures Advance(data, at, tp) == to
  {
    var a := Advance(data, at, tp);
    assert a < |data| ==> tp < data[a].tp;
    assert to < |data| ==> tp < data[to].tp;
  }

  lemma AdvanceTwice(data: seq<Sample>, at: nat, tp: int, tp': int)
    requires Sorted(data) && at <= |data|
    ensures Advance(data, Advance(data, at, tp), tp') == Advance(data, at, if tp < tp' then tp' else tp)
  {
    var a := Advance(data, at, tp);
    AdvanceIs(data, at, if tp < tp' then tp' else tp, Advance(data, a, tp'));
  }

  // After resetIterator(tp0), the batches of any pings replay exactly the
  // samples from tp0 to the latest ping, each once and in recorded order:
  // splitting, repeating or reordering pings makes no difference.
  lemma ExactlyOnceReplay(data: seq<Sample>, tp0: int, pings: seq<int>)
    requires Sorted(data) && pings != []
    ensures Flatten(Batches(data, FirstNotBefore(data, tp0), pings)) == Select(data, tp0, Latest(pings))
  {
    var at, hi := FirstNotBefore(data, tp0), Latest(pings);
    BatchesAreOneSlice(data, at, pings);
    CursorOfLatest(data, at, pings);
    SelectIsSlice(data, tp0, hi, at, Advance(data, at, hi));
  }
}
