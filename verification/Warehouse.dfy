/** The ClickHouse warehouse (analytics/warehouse.py): insert logs, read with FINAL or through the aggregate. */
module Warehouse {
  import opened Wrappers

  /** A ledger transaction with its two accounts; createdAt is its timestamp, in milliseconds. */
  datatype Row = Row(rrn: string, amountCents: int, createdAt: int, debitAccount: string, creditAccount: string)

  datatype FactRow = FactRow(row: Row, loadedAt: int)

  datatype Mark = Mark(lastLoaded: int, updatedAt: int)

  function RowsOf(fact: seq<FactRow>): (r: seq<Row>)
    ensures |r| == |fact|
  {
    seq(|fact|, i requires 0 <= i < |fact| => fact[i].row)
  }

  function RowSet(rows: seq<Row>): set<Row> {
    set r | r in rows
  }

  // ----- FINAL: the latest version of each key, the later insert on a tie

  predicate SameKey(a: Row, b: Row) {
    a.createdAt == b.createdAt && a.rrn == b.rrn
  }

  /** fact[i] is what FINAL shows for its key. */
  predicate IsLatest(fact: seq<FactRow>, i: nat)
    requires i < |fact|
  {
    forall j | 0 <= j < |fact| && SameKey(fact[i].row, fact[j].row) ::
      fact[j].loadedAt < fact[i].loadedAt || (fact[j].loadedAt == fact[i].loadedAt && j <= i)
  }

  function Final(fact: seq<FactRow>): set<Row> {
    set i | 0 <= i < |fact| && IsLatest(fact, i) :: fact[i].row
  }

  lemma {:induction false} LatestExists(fact: seq<FactRow>, upTo: nat, key: Row) returns (i: nat)
    requires upTo <= |fact| && exists j | 0 <= j < upTo :: SameKey(key, fact[j].row)
    ensures i < upTo && SameKey(key, fact[i].row)
    ensures forall j | 0 <= j < upTo && SameKey(key, fact[j].row) ::
              fact[j].loadedAt < fact[i].loadedAt || (fact[j].loadedAt == fact[i].loadedAt && j <= i)
    decreases upTo
  {
    if exists j | 0 <= j < upTo - 1 :: SameKey(key, fact[j].row) {
      i := LatestExists(fact, upTo - 1, key);
      if SameKey(key, fact[upTo - 1].row) && fact[upTo - 1].loadedAt >= fact[i].loadedAt {
        i := upTo - 1;
      }
    } else {
      i := upTo - 1;
    }
  }

  /** When a key always comes with the same row, FINAL shows every row once. */
  lemma FinalOfCopies(fact: seq<FactRow>)
    requires forall i, j | 0 <= i < |fact| && 0 <= j < |fact| && SameKey(fact[i].row, fact[j].row) ::
               fact[i].row == fact[j].row
    ensures Final(fact) == RowSet(RowsOf(fact))
  {
    forall r | r in RowsOf(fact)
      ensures r in Final(fact)
    {
      var k :| 0 <= k < |fact| && RowsOf(fact)[k] == r;
      var i := LatestExists(fact, |fact|, r);
      assert IsLatest(fact, i) && fact[i].row == fact[k].row;
    }
    forall r | r in Final(fact)
      ensures r in RowsOf(fact)
    {
      var i :| 0 <= i < |fact| && IsLatest(fact, i) && fact[i].row == r;
      assert RowsOf(fact)[i] == r;
    }
  }

  // ----- the watermark: one row per table, the latest by updated_at

  function Latest(marks: seq<Mark>): Option<Mark> {
    if marks == [] then None
    else
      var before, last := Latest(marks[..|marks| - 1]), marks[|marks| - 1];
      if before.Some? && before.value.updatedAt > last.updatedAt then before else Some(last)
  }

  function Watermark(marks: seq<Mark>): Option<int> {
    match Latest(marks)
    case Some(mark) => Some(mark.lastLoaded)
    case None => None
  }

  /** A watermark takes effect exactly when the clock has not gone back since the latest one. */
  lemma SetWatermarkExact(marks: seq<Mark>, mark: Mark)
    ensures Latest(marks + [mark]) == Some(mark) <==>
            Latest(marks).None? || Latest(marks).value.updatedAt <= mark.updatedAt || Latest(marks).value == mark
  {
    assert (marks + [mark])[..|marks|] == marks;
  }

  lemma {:induction false} LatestIsPast(marks: seq<Mark>, clock: int)
    requires forall m | m in marks :: m.updatedAt <= clock
    ensures Latest(marks).Some? ==> Latest(marks).value.updatedAt <= clock
  {
    if marks != [] {
      assert marks[|marks| - 1] in marks;
      LatestIsPast(marks[..|marks| - 1], clock);
    }
  }

  // ----- the daily aggregate: a view over inserts, before any deduplication

  function Day(row: Row): int {
    row.createdAt / 86_400_000
  }

  predicate Falls(row: Row, day: int, account: string) {
    Day(row) == day && row.debitAccount == account
  }

  /** txn_count and total_cents of a day and account over a list of inserts. */
  function Volume(rows: seq<Row>, day: int, account: string): (nat, int) {
    if rows == [] then (0, 0)
    else
      var (count, total) := Volume(rows[..|rows| - 1], day, account);
      var row := rows[|rows| - 1];
      if Falls(row, day, account) then (count + 1, total + row.amountCents) else (count, total)
  }

  /** The amounts of the rows at these indices, added up. */
  ghost function CentsAt(rows: seq<Row>, indices: set<nat>): int
    requires forall i | i in indices :: i < |rows|
  {
    if indices == {} then 0
    else
      var i :| i in indices;
      rows[i].amountCents + CentsAt(rows, indices - {i})
  }

  lemma {:induction false} CentsTakeOut(rows: seq<Row>, indices: set<nat>, i: nat)
    requires (forall k | k in indices :: k < |rows|) && i in indices
    ensures CentsAt(rows, indices) == rows[i].amountCents + CentsAt(rows, indices - {i})
    decreases indices
  {
    var k :| k in indices && CentsAt(rows, indices) == rows[k].amountCents + CentsAt(rows, indices - {k});
    if k != i {
      CentsTakeOut(rows, indices - {k}, i);
      CentsTakeOut(rows, indices - {i}, k);
      assert indices - {k} - {i} == indices - {i} - {k};
    }
  }

  lemma {:induction false} CentsOfPrefix(rows: seq<Row>, n: nat, indices: set<nat>)
    requires n <= |rows| && forall i | i in indices :: i < n
    ensures CentsAt(rows, indices) == CentsAt(rows[..n], indices)
    decreases indices
  {
    if indices != {} {
      var i :| i in indices && CentsAt(rows, indices) == rows[i].amountCents + CentsAt(rows, indices - {i});
      CentsOfPrefix(rows, n, indices - {i});
      CentsTakeOut(rows[..n], indices, i);
    }
  }

  /** The inserts of a day (in UTC) whose payer is the account. */
  ghost function Paid(rows: seq<Row>, day: int, account: string): (indices: set<nat>)
    ensures forall i :: i in indices <==>
              0 <= i < |rows| && rows[i].createdAt / 86_400_000 == day && rows[i].debitAccount == account
  {
    set i | 0 <= i < |rows| && rows[i].createdAt / 86_400_000 == day && rows[i].debitAccount == account
  }

  lemma PaidOneMore(rows: seq<Row>, day: int, account: string)
    requires rows != []
    ensures var before, n := Paid(rows[..|rows| - 1], day, account), |rows| - 1;
            && n !in before
            && Paid(rows, day, account) == if Falls(rows[n], day, account) then before + {n} else before
  {
  }

  lemma {:induction false} VolumeOfPaid(rows: seq<Row>, day: int, account: string)
    ensures Volume(rows, day, account) ==
            (|Paid(rows, day, account)|, CentsAt(rows, Paid(rows, day, account)))
  {
    hide Paid, CentsAt, Falls;
    if rows == [] {
      assert Paid(rows, day, account) == {};
      NoCents(rows);
    } else {
      var n := |rows| - 1;
      var before := Paid(rows[..n], day, account);
      VolumeOfPaid(rows[..n], day, account);
      PaidOneMore(rows, day, account);
      CentsOfPrefix(rows, n, before);
      if Falls(rows[n], day, account) {
        assert before + {n} - {n} == before;
        CentsTakeOut(rows, before + {n}, n);
      }
    }
  }

  lemma NoCents(rows: seq<Row>)
    ensures CentsAt(rows, {}) == 0
  {
  }

  /** The aggregate counts exactly the inserts of that day debited from that account, and adds up their amounts. */
  lemma VolumeExact(rows: seq<Row>, day: int, account: string)
    ensures Volume(rows, day, account) ==
            (|set i | 0 <= i < |rows| && rows[i].createdAt / 86_400_000 == day && rows[i].debitAccount == account|,
             CentsAt(rows, Paid(rows, day, account)))
  {
    hide Volume, CentsAt;
    VolumeOfPaid(rows, day, account);
  }

  function Plus(a: (nat, int), b: (nat, int)): (nat, int) {
    (a.0 + b.0, a.1 + b.1)
  }

  lemma {:induction false} VolumeOfBoth(a: seq<Row>, b: seq<Row>, day: int, account: string)
    ensures Volume(a + b, day, account) == Plus(Volume(a, day, account), Volume(b, day, account))
  {
    if b == [] {
      assert a + b == a;
    } else {
      VolumeOfBoth(a, b[..|b| - 1], day, account);
      assert (a + b)[..|a + b| - 1] == a + b[..|b| - 1];
    }
  }

  lemma TakeOneOut(rows: seq<Row>, k: nat, day: int, account: string) returns (rest: seq<Row>)
    requires k < |rows|
    ensures |rest| == |rows| - 1 && multiset(rest) == multiset(rows) - multiset{rows[k]}
    ensures Volume(rows, day, account) == Plus(Volume(rest, day, account), Volume([rows[k]], day, account))
  {
    hide Volume;
    var before, after := rows[..k], rows[k + 1..];
    rest := before + after;
    assert rows == before + [rows[k]] + after;
    VolumeOfBoth(before + [rows[k]], after, day, account);
    VolumeOfBoth(before, [rows[k]], day, account);
    VolumeOfBoth(before, after, day, account);
  }

  /** The aggregate does not depend on the order of the inserts. */
  lemma {:induction false} VolumeOfSameRows(a: seq<Row>, b: seq<Row>, day: int, account: string)
    requires multiset(a) == multiset(b)
    ensures Volume(a, day, account) == Volume(b, day, account)
    decreases |a|
  {
    hide Volume;
    if a == [] {
      assert |multiset(b)| == 0;
    } else {
      assert a[0] in multiset(b);
      var k :| 0 <= k < |b| && b[k] == a[0];
      var restOfA := TakeOneOut(a, 0, day, account);
      var restOfB := TakeOneOut(b, k, day, account);
      VolumeOfSameRows(restOfA, restOfB, day, account);
    }
  }
}
