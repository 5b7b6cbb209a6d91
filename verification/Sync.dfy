/** The incremental sync (analytics/sync_to_warehouse.py): pages behind a watermark, interrupted anywhere. */
module Sync {
  import opened Wrappers
  import opened Warehouse

  // ----- the source

  predicate Increasing(rows: seq<Row>) {
    forall i, j | 0 <= i < j < |rows| :: rows[i].createdAt < rows[j].createdAt
  }

  predicate IsNewer(row: Row, since: Option<int>) {
    since.None? || row.createdAt > since.value
  }

  /** WHERE created_at > since */
  function Newer(rows: seq<Row>, since: Option<int>): seq<Row> {
    if rows == [] then []
    else Newer(rows[..|rows| - 1], since) + if IsNewer(rows[|rows| - 1], since) then [rows[|rows| - 1]] else []
  }

  /** How many rows are at or below the watermark, when timestamps increase. */
  function Below(rows: seq<Row>, since: Option<int>): (n: nat)
    ensures n <= |rows|
  {
    if rows == [] then 0
    else if IsNewer(rows[|rows| - 1], since) then Below(rows[..|rows| - 1], since)
    else |rows|
  }

  lemma {:induction false} BelowIndex(rows: seq<Row>, since: Option<int>)
    requires Increasing(rows)
    ensures forall i | 0 <= i < |rows| :: IsNewer(rows[i], since) <==> i >= Below(rows, since)
  {
    if rows != [] {
      var before, last := rows[..|rows| - 1], rows[|rows| - 1];
      BelowIndex(before, since);
      forall i | 0 <= i < |rows|
        ensures IsNewer(rows[i], since) <==> i >= Below(rows, since)
      {
        assert i < |before| ==> rows[i] == before[i] && rows[i].createdAt < last.createdAt;
      }
    }
  }

  lemma {:induction false} NewerIsSuffix(rows: seq<Row>, since: Option<int>, b: nat)
    requires b <= |rows| && forall i | 0 <= i < |rows| :: IsNewer(rows[i], since) <==> i >= b
    ensures Newer(rows, since) == rows[b..]
  {
    if rows != [] {
      var before := rows[..|rows| - 1];
      if b < |rows| {
        NewerIsSuffix(before, since, b);
        assert rows[b..] == before[b..] + [rows[|rows| - 1]];
      } else {
        NewerIsSuffix(before, since, b - 1);
      }
    }
  }

  /** With increasing timestamps the query cuts the source in two. */
  lemma BelowSplits(rows: seq<Row>, since: Option<int>)
    requires Increasing(rows)
    ensures forall i | 0 <= i < |rows| :: IsNewer(rows[i], since) <==> i >= Below(rows, since)
    ensures Newer(rows, since) == rows[Below(rows, since)..]
  {
    BelowIndex(rows, since);
    NewerIsSuffix(rows, since, Below(rows, since));
  }

  lemma BelowUnique(rows: seq<Row>, since: Option<int>, b: nat)
    requires Increasing(rows) && b <= |rows|
    requires b > 0 ==> !IsNewer(rows[b - 1], since)
    requires b < |rows| ==> IsNewer(rows[b], since)
    ensures Below(rows, since) == b
  {
    hide Below;
    BelowIndex(rows, since);
  }

  function Min(a: nat, b: nat): nat {
    if a < b then a else b
  }

  /** extract_new_transactions */
  function Page(rows: seq<Row>, since: Option<int>, limit: nat): seq<Row> {
    var newer := Newer(rows, since);
    newer[..Min(limit, |newer|)]
  }

  /** The rows the watermark vouches for. */
  function Covered(rows: seq<Row>, watermark: Option<int>): seq<Row> {
    rows[..Below(rows, watermark)]
  }

  /** The rows at or below the watermark, in the order of their timestamps. */
  lemma CoveredExact(rows: seq<Row>, watermark: Option<int>, r: Row)
    requires Increasing(rows)
    ensures Covered(rows, watermark) <= rows
    ensures r in Covered(rows, watermark) <==> r in rows && watermark.Some? && r.createdAt <= watermark.value
  {
    hide Below;
    BelowIndex(rows, watermark);
    if r in rows {
      var i :| 0 <= i < |rows| && rows[i] == r;
      assert i < Below(rows, watermark) ==> Covered(rows, watermark)[i] == r;
      assert r in Covered(rows, watermark) ==> exists j | 0 <= j < Below(rows, watermark) :: rows[j] == r;
    }
  }

  lemma PageIsSlice(rows: seq<Row>, since: Option<int>, limit: nat)
    requires Increasing(rows)
    ensures Below(rows, since) + |Page(rows, since, limit)| <= |rows|
    ensures Page(rows, since, limit) == rows[Below(rows, since)..Below(rows, since) + |Page(rows, since, limit)|]
    ensures |Page(rows, since, limit)| < limit ==> Below(rows, since) + |Page(rows, since, limit)| == |rows|
  {
    hide Below, Newer;
    BelowSplits(rows, since);
  }

  /** Moving the watermark to the end of a page covers exactly the page more. */
  lemma PageAdvances(rows: seq<Row>, since: Option<int>, limit: nat)
    requires Increasing(rows) && limit > 0
    ensures var page := Page(rows, since, limit);
            page != [] ==>
              var after := Some(page[|page| - 1].createdAt);
              && Covered(rows, after) == Covered(rows, since) + page
              && |Newer(rows, after)| == |Newer(rows, since)| - |page|
              && IsNewer(page[|page| - 1], since)
    ensures |Page(rows, since, limit)| < limit ==> Covered(rows, since) + Page(rows, since, limit) == rows
  {
    hide Below, Newer, Page;
    PageIsSlice(rows, since, limit);
    BelowSplits(rows, since);
    var page, b := Page(rows, since, limit), Below(rows, since);
    if page != [] {
      var after := Some(page[|page| - 1].createdAt);
      BelowSplits(rows, after);
      assert page[|page| - 1] == rows[b + |page| - 1];
      BelowUnique(rows, after, b + |page|);
    }
  }

  lemma {:induction false} NewerMembers(rows: seq<Row>, since: Option<int>, row: Row)
    ensures row in Newer(rows, since) <==> row in rows && IsNewer(row, since)
  {
    if rows != [] {
      NewerMembers(rows[..|rows| - 1], since, row);
      assert rows == rows[..|rows| - 1] + [rows[|rows| - 1]];
    }
  }

  // ----- late rows, without assuming that rows appear in the order of their timestamps

  /** What the query may return: a first part of the newer rows, ordered by timestamp. */
  ghost predicate IsPage(page: seq<Row>, rows: seq<Row>, since: Option<int>, limit: nat) {
    && |page| == Min(limit, |Newer(rows, since)|)
    && multiset(page) <= multiset(Newer(rows, since))
    && (forall i, j | 0 <= i < j < |page| :: page[i].createdAt <= page[j].createdAt)
    && forall r, p | r in multiset(Newer(rows, since)) - multiset(page) && p in page :: p.createdAt <= r.createdAt
  }

  /** One reading of the source, as it was then. */
  datatype Read = Read(rows: seq<Row>, since: Option<int>, page: seq<Row>)

  /** Between two readings, of one run or of two, the watermark has stayed or has moved to the end of the page. */
  predicate Follows(a: Read, b: Read) {
    b.since == a.since || (a.page != [] && b.since == Some(a.page[|a.page| - 1].createdAt))
  }

  ghost predicate IsHistory(readings: seq<Read>, limit: nat) {
    && (forall i | 0 <= i < |readings| :: IsPage(readings[i].page, readings[i].rows, readings[i].since, limit))
    && (forall i | 0 <= i < |readings| - 1 :: Follows(readings[i], readings[i + 1]))
  }

  lemma PageIsNewer(page: seq<Row>, rows: seq<Row>, since: Option<int>, limit: nat, row: Row)
    requires IsPage(page, rows, since, limit) && row in page
    ensures row in rows && IsNewer(row, since)
  {
    assert row in multiset(page);
    NewerMembers(rows, since, row);
  }

  lemma Remainder(newer: seq<Row>, n: nat)
    requires n <= |newer|
    ensures multiset(newer[..n]) <= multiset(newer)
    ensures multiset(newer) - multiset(newer[..n]) == multiset(newer[n..])
  {
    assert newer == newer[..n] + newer[n..];
  }

  lemma EarlierFirst(newer: seq<Row>, n: nat, r: Row, p: Row)
    requires Increasing(newer) && n <= |newer| && r in newer[n..] && p in newer[..n]
    ensures p.createdAt <= r.createdAt
  {
    var k :| 0 <= k < |newer[n..]| && newer[n..][k] == r;
    var m :| 0 <= m < n && newer[..n][m] == p;
    assert newer[m].createdAt < newer[n + k].createdAt;
  }

  /** With rows in the order of their timestamps the first page is what the query returns. */
  lemma PageIsPage(rows: seq<Row>, since: Option<int>, limit: nat)
    requires Increasing(rows)
    ensures IsPage(Page(rows, since, limit), rows, since, limit)
  {
    hide Newer, Below;
    BelowSplits(rows, since);
    var newer := Newer(rows, since);
    assert Increasing(newer) by { SuffixIncreases(rows, Below(rows, since)); }
    FirstRows(newer, Min(limit, |newer|));
  }

  lemma SuffixIncreases(rows: seq<Row>, b: nat)
    requires Increasing(rows) && b <= |rows|
    ensures Increasing(rows[b..])
  {
  }

  lemma FirstRows(newer: seq<Row>, n: nat)
    requires Increasing(newer) && n <= |newer|
    ensures multiset(newer[..n]) <= multiset(newer)
    ensures forall i, j | 0 <= i < j < n :: newer[..n][i].createdAt <= newer[..n][j].createdAt
    ensures forall r, p | r in multiset(newer) - multiset(newer[..n]) && p in newer[..n] :: p.createdAt <= r.createdAt
  {
    Remainder(newer, n);
    forall r, p | r in multiset(newer) - multiset(newer[..n]) && p in newer[..n]
      ensures p.createdAt <= r.createdAt
    {
      EarlierFirst(newer, n, r, p);
    }
  }

  /**
    Over any number of runs, a row that turns up with a timestamp at or below the watermark is never read: not by the
    reading at that watermark, nor by any later one.
   */
  lemma {:induction false} LateRowNeverRead(readings: seq<Read>, limit: nat, i: nat, j: nat, row: Row)
    requires IsHistory(readings, limit) && i <= j < |readings| && !IsNewer(row, readings[i].since)
    ensures !IsNewer(row, readings[j].since) && row !in readings[j].page
    decreases j
  {
    hide IsPage;
    if i < j {
      LateRowNeverRead(readings, limit, i, j - 1, row);
      var before := readings[j - 1];
      assert Follows(before, readings[j]);
      if before.page != [] {
        PageIsNewer(before.page, before.rows, before.since, limit, before.page[|before.page| - 1]);
      }
    }
    if row in readings[j].page {
      PageIsNewer(readings[j].page, readings[j].rows, readings[j].since, limit, row);
    }
  }

  predicate AllIn(a: seq<Row>, b: seq<Row>) {
    forall r | r in a :: r in b
  }

  /** The source only gains rows: low at first, high in the end. */
  ghost predicate Gains(readings: seq<Read>, low: seq<Row>, high: seq<Row>) {
    && AllIn(low, high)
    && (forall i | 0 <= i < |readings| :: AllIn(low, readings[i].rows) && AllIn(readings[i].rows, high))
    && (forall i, j | 0 <= i <= j < |readings| :: AllIn(readings[i].rows, readings[j].rows))
  }

  /** Reading f is the first that could see the row. */
  predicate TurnsUpAt(readings: seq<Read>, f: nat, row: Row) {
    f < |readings| && row in readings[f].rows && forall i | 0 <= i < f :: row !in readings[i].rows
  }

  /** No other row has the row's timestamp. */
  ghost predicate OwnTimestamp(readings: seq<Read>, row: Row) {
    forall i, r | 0 <= i < |readings| && r in readings[i].rows && r.createdAt == row.createdAt :: r == row
  }

  /** The last reading found less than a full page. */
  predicate EndsShort(readings: seq<Read>, limit: nat) {
    readings != [] && |readings[|readings| - 1].page| < limit
  }

  predicate IsRead(readings: seq<Read>, row: Row) {
    exists j :: 0 <= j < |readings| && row in readings[j].page
  }

  /** What a page leaves out is newer than all of it, and so still newer than the watermark that follows. */
  lemma StillNewer(readings: seq<Read>, limit: nat, j: nat, row: Row)
    requires IsHistory(readings, limit) && j + 1 < |readings| && OwnTimestamp(readings, row)
    requires row in readings[j].rows && IsNewer(row, readings[j].since) && row !in readings[j].page
    ensures IsNewer(row, readings[j + 1].since)
  {
    hide IsPage;
    var a := readings[j];
    assert Follows(a, readings[j + 1]);
    if a.page != [] {
      var last := a.page[|a.page| - 1];
      LeftOut(a.page, a.rows, a.since, limit, row);
      PageIsNewer(a.page, a.rows, a.since, limit, last);
      assert last.createdAt <= row.createdAt;
    }
  }

  lemma LeftOut(page: seq<Row>, rows: seq<Row>, since: Option<int>, limit: nat, row: Row)
    requires IsPage(page, rows, since, limit) && row in rows && IsNewer(row, since) && row !in page
    ensures forall p | p in page :: p.createdAt <= row.createdAt
    ensures |page| == limit
  {
    NewerMembers(rows, since, row);
    var newer := Newer(rows, since);
    var rest := multiset(newer) - multiset(page);
    assert row in rest && multiset(newer) == multiset(page) + rest;
    assert |rest| >= 1;
  }

  lemma {:induction false} ReadInTheEnd(readings: seq<Read>, limit: nat, j: nat, row: Row)
    requires IsHistory(readings, limit) && j < |readings| && OwnTimestamp(readings, row)
    requires forall i | j <= i < |readings| :: row in readings[i].rows
    requires IsNewer(row, readings[j].since) && |readings[|readings| - 1].page| < limit
    ensures IsRead(readings, row)
    decreases |readings| - j
  {
    hide IsPage, IsHistory;
    if row !in readings[j].page {
      HistoryPage(readings, limit, j);
      LeftOut(readings[j].page, readings[j].rows, readings[j].since, limit, row);
      StillNewer(readings, limit, j, row);
      ReadInTheEnd(readings, limit, j + 1, row);
    }
  }

  lemma HistoryPage(readings: seq<Read>, limit: nat, j: nat)
    requires IsHistory(readings, limit) && j < |readings|
    ensures IsPage(readings[j].page, readings[j].rows, readings[j].since, limit)
  {
    hide IsPage;
  }

  /**
    Over any number of runs that end with a short page, a row that has its timestamp to itself is read exactly when it
    was newer than the watermark of the first reading that could see it.
   */
  lemma ReadExact(
      readings: seq<Read>, limit: nat, first: Option<int>, last: Option<int>, low: seq<Row>, high: seq<Row>, f: nat,
      row: Row)
    requires IsRecord(readings, limit, first, last, low, high) && TurnsUpAt(readings, f, row)
    requires OwnTimestamp(readings, row) && EndsShort(readings, limit)
    ensures IsRead(readings, row) <==> IsNewer(row, readings[f].since)
  {
    hide IsPage;
    if IsNewer(row, readings[f].since) {
      ReadInTheEnd(readings, limit, f, row);
    } else {
      forall j | 0 <= j < |readings|
        ensures row !in readings[j].page
      {
        if j < f {
          if row in readings[j].page {
            HistoryPage(readings, limit, j);
            PageIsNewer(readings[j].page, readings[j].rows, readings[j].since, limit, row);
          }
        } else {
          LateRowNeverRead(readings, limit, f, j, row);
        }
      }
    }
  }

  /** A row that turns up behind the watermark is never read. */
  lemma LateRow(a: Row, b: Row, limit: nat) returns (readings: seq<Read>)
    requires limit > 1 && a != b && b.createdAt <= a.createdAt
    ensures IsHistory(readings, limit) && TurnsUpAt(readings, 1, b) && !IsNewer(b, readings[1].since)
    ensures EndsShort(readings, limit) && !IsRead(readings, b)
  {
    hide IsPage;
    readings := [Read([a], None, [a]), Read([a, b], Some(a.createdAt), [])];
    FirstPage([a], limit);
    EmptyPage(a, b, limit);
  }

  /** Of two rows with one timestamp the one that does not fit on the page is never read, though it was new. */
  lemma TiedRow(a: Row, b: Row) returns (readings: seq<Read>)
    requires a != b && a.createdAt == b.createdAt
    ensures IsHistory(readings, 1) && TurnsUpAt(readings, 0, b) && IsNewer(b, readings[0].since)
    ensures EndsShort(readings, 1) && !IsRead(readings, b)
  {
    hide IsPage;
    readings := [Read([a, b], None, [a]), Read([a, b], Some(a.createdAt), [])];
    FirstOfTwo(a, b);
    EmptyPage(a, b, 1);
  }

  lemma FirstPage(rows: seq<Row>, limit: nat)
    requires |rows| == 1 && limit >= 1
    ensures IsPage(rows, rows, None, limit)
  {
    assert rows == [rows[0]] && rows[..0] == [];
    assert Newer(rows, None) == rows;
  }

  lemma NewerOfTwo(a: Row, b: Row, since: Option<int>)
    ensures Newer([a, b], since) ==
            (if IsNewer(a, since) then [a] else []) + (if IsNewer(b, since) then [b] else [])
  {
    assert [a, b][..1] == [a] && [a][..0] == [];
    assert Newer([a], since) == if IsNewer(a, since) then [a] else [];
  }

  lemma EmptyPage(a: Row, b: Row, limit: nat)
    requires b.createdAt <= a.createdAt
    ensures IsPage([], [a, b], Some(a.createdAt), limit)
  {
    NewerOfTwo(a, b, Some(a.createdAt));
  }

  lemma FirstOfTwo(a: Row, b: Row)
    requires a.createdAt == b.createdAt
    ensures IsPage([a], [a, b], None, 1)
  {
    NewerOfTwo(a, b, None);
    assert Newer([a, b], None) == [a, b];
    assert multiset([a, b]) == multiset([a]) + multiset{b};
  }

  lemma CoveredByGrowth(rows: seq<Row>, more: seq<Row>, watermark: Option<int>)
    requires Increasing(rows + more)
    requires watermark.Some? ==> rows != [] && watermark.value <= rows[|rows| - 1].createdAt
    ensures Increasing(rows) && Covered(rows + more, watermark) == Covered(rows, watermark)
  {
    hide Below;
    assert forall i | 0 <= i < |rows| :: (rows + more)[i] == rows[i];
    BelowIndex(rows, watermark);
    var b := Below(rows, watermark);
    if b == |rows| && more != [] && watermark.Some? {
      assert (rows + more)[|rows| - 1].createdAt < (rows + more)[|rows|].createdAt;
    }
    BelowUnique(rows + more, watermark, b);
  }

  // ----- the state of both stores

  /** What the source and the warehouse hold; extras is what interrupted batches inserted. */
  datatype Stores = Stores(source: seq<Row>, fact: seq<FactRow>, marks: seq<Mark>, clock: int, extras: seq<Row>)

  ghost predicate Valid(s: Stores) {
    && Increasing(s.source)
    && (Watermark(s.marks).Some? ==>
          s.source != [] && Watermark(s.marks).value <= s.source[|s.source| - 1].createdAt)
    && (forall m | m in s.marks :: m.updatedAt <= s.clock)
    && (forall r | r in s.extras :: r in s.source)
    && multiset(RowsOf(s.fact)) == multiset(Covered(s.source, Watermark(s.marks))) + multiset(s.extras)
  }

  /** Every source row at or below the watermark has been inserted, and nothing but source rows has. */
  lemma CoveredIsLoaded(s: Stores, r: Row)
    requires Valid(s)
    ensures r in s.source && Watermark(s.marks).Some? && r.createdAt <= Watermark(s.marks).value ==> r in RowsOf(s.fact)
    ensures r in RowsOf(s.fact) ==> r in s.source
  {
    BelowSplits(s.source, Watermark(s.marks));
    if r in s.source && !IsNewer(r, Watermark(s.marks)) {
      var i :| 0 <= i < |s.source| && s.source[i] == r;
      assert Covered(s.source, Watermark(s.marks))[i] == r;
      assert r in multiset(RowsOf(s.fact));
    }
    if r in RowsOf(s.fact) {
      assert r in multiset(RowsOf(s.fact));
      assert r in Covered(s.source, Watermark(s.marks)) || r in s.extras;
    }
  }

  lemma RowsWithOneKey(s: Stores, a: Row, b: Row)
    requires Valid(s) && a in RowsOf(s.fact) && b in RowsOf(s.fact) && SameKey(a, b)
    ensures a == b
  {
    CoveredIsLoaded(s, a);
    CoveredIsLoaded(s, b);
  }

  /** FINAL always shows each inserted row once; when the watermark covers the source, it shows the source. */
  lemma FinalIsSource(s: Stores)
    requires Valid(s)
    ensures Final(s.fact) == RowSet(RowsOf(s.fact))
    ensures Covered(s.source, Watermark(s.marks)) == s.source ==> Final(s.fact) == RowSet(s.source)
  {
    forall i, j | 0 <= i < |s.fact| && 0 <= j < |s.fact| && SameKey(s.fact[i].row, s.fact[j].row)
      ensures s.fact[i].row == s.fact[j].row
    {
      assert RowsOf(s.fact)[i] == s.fact[i].row && RowsOf(s.fact)[j] == s.fact[j].row;
      RowsWithOneKey(s, s.fact[i].row, s.fact[j].row);
    }
    FinalOfCopies(s.fact);
    if Covered(s.source, Watermark(s.marks)) == s.source {
      BelowSplits(s.source, Watermark(s.marks));
      forall r
        ensures r in RowsOf(s.fact) <==> r in s.source
      {
        CoveredIsLoaded(s, r);
        if r in s.source {
          assert r in multiset(s.source);
          assert r in multiset(RowsOf(s.fact));
        }
      }
    }
  }

  /** The aggregate is the truth about the covered rows plus exactly what interrupted batches inserted. */
  lemma AggregateExact(s: Stores, day: int, account: string)
    requires Valid(s)
    ensures var covered := Covered(s.source, Watermark(s.marks));
            && Volume(RowsOf(s.fact), day, account).0 ==
               |set i | 0 <= i < |covered| && covered[i].createdAt / 86_400_000 == day
                                              && covered[i].debitAccount == account| +
               |set i | 0 <= i < |s.extras| && s.extras[i].createdAt / 86_400_000 == day
                                              && s.extras[i].debitAccount == account|
            && Volume(RowsOf(s.fact), day, account).1 ==
               CentsAt(covered, Paid(covered, day, account)) + CentsAt(s.extras, Paid(s.extras, day, account))
  {
    var covered := Covered(s.source, Watermark(s.marks));
    assert multiset(covered + s.extras) == multiset(covered) + multiset(s.extras);
    VolumeOfSameRows(RowsOf(s.fact), covered + s.extras, day, account);
    VolumeOfBoth(covered, s.extras, day, account);
    VolumeExact(covered, day, account);
    VolumeExact(s.extras, day, account);
  }

  /** Without interruptions each covered row has been inserted exactly once, and nothing else. */
  lemma InsertedOnce(s: Stores, r: Row)
    requires Valid(s) && s.extras == []
    ensures multiset(RowsOf(s.fact))[r] == if r in Covered(s.source, Watermark(s.marks)) then 1 else 0
  {
    var covered := Covered(s.source, Watermark(s.marks));
    Multiplicity(covered, r);
  }

  lemma {:induction false} Multiplicity(rows: seq<Row>, r: Row)
    requires Increasing(rows)
    ensures multiset(rows)[r] == if r in rows then 1 else 0
  {
    if rows != [] {
      var before, last := rows[..|rows| - 1], rows[|rows| - 1];
      assert rows == before + [last];
      Multiplicity(before, r);
    }
  }

  /** Other processes append to the source. */
  lemma GrowthKeeps(s: Stores, more: seq<Row>)
    requires Valid(s) && Increasing(s.source + more)
    ensures Valid(s.(source := s.source + more))
  {
    CoveredByGrowth(s.source, more, Watermark(s.marks));
    assert more != [] ==> (s.source + more)[|s.source + more| - 1] == more[|more| - 1];
    if s.source != [] && more != [] {
      assert (s.source + more)[|s.source| - 1].createdAt < (s.source + more)[|s.source + more| - 1].createdAt;
    }
  }

  // ----- what the steps of a run do to the stores

  /** After an insert of some of a page, those rows count as extras for as long as no watermark vouches for them. */
  lemma LoadKeeps(s: Stores, t: Stores, rows: seq<Row>)
    requires Valid(s) && (forall r | r in rows :: r in s.source)
    requires RowsOf(t.fact) == RowsOf(s.fact) + rows
    requires t.source == s.source && t.marks == s.marks && t.clock >= s.clock && t.extras == s.extras + rows
    ensures Valid(t)
  {
    hide Covered, Watermark;
  }

  lemma PageOfSource(rows: seq<Row>, since: Option<int>, limit: nat)
    requires Increasing(rows)
    ensures forall r | r in Page(rows, since, limit) :: r in rows
  {
    BelowSplits(rows, since);
  }

  /** Once the watermark stands at the end of a loaded page, the page is no longer extra. */
  lemma MarkKeeps(s: Stores, t: Stores, limit: nat, extras: seq<Row>)
    requires Valid(s) && limit > 0 && Page(s.source, Watermark(s.marks), limit) != []
    requires s.extras == extras + Page(s.source, Watermark(s.marks), limit)
    requires t.source == s.source && t.fact == s.fact && t.extras == extras && t.clock >= s.clock
    requires var page := Page(s.source, Watermark(s.marks), limit);
             t.marks == s.marks + [Mark(page[|page| - 1].createdAt, t.clock)]
    ensures Valid(t)
    ensures Covered(t.source, Watermark(t.marks)) ==
            Covered(s.source, Watermark(s.marks)) + Page(s.source, Watermark(s.marks), limit)
    ensures AtMost(Watermark(s.marks), Watermark(t.marks))
    ensures |Newer(t.source, Watermark(t.marks))| ==
            |Newer(s.source, Watermark(s.marks))| - |Page(s.source, Watermark(s.marks), limit)|
  {
    hide Page, Newer, Covered, RowsOf;
    var page := Page(s.source, Watermark(s.marks), limit);
    var last := page[|page| - 1];
    LatestIsPast(s.marks, s.clock);
    SetWatermarkExact(s.marks, Mark(last.createdAt, t.clock));
    PageAdvances(s.source, Watermark(s.marks), limit);
    PageOfSource(s.source, Watermark(s.marks), limit);
    LastIsLatest(s.source, last);
  }

  lemma LastIsLatest(rows: seq<Row>, r: Row)
    requires Increasing(rows) && r in rows
    ensures r.createdAt <= rows[|rows| - 1].createdAt
  {
    var i :| 0 <= i < |rows| && rows[i] == r;
    assert i < |rows| - 1 ==> rows[i].createdAt < rows[|rows| - 1].createdAt;
  }

  lemma MarkIs(s: Stores, mark: Mark)
    requires Valid(s) && mark.updatedAt >= s.clock
    ensures Watermark(s.marks + [mark]) == Some(mark.lastLoaded)
  {
    LatestIsPast(s.marks, s.clock);
    SetWatermarkExact(s.marks, mark);
  }

  lemma ValidSource(s: Stores)
    requires Valid(s)
    ensures Increasing(s.source)
  {
  }

  lemma GrowthCovers(s: Stores, more: seq<Row>)
    requires Valid(s) && Increasing(s.source + more)
    ensures Covered(s.source + more, Watermark(s.marks)) == Covered(s.source, Watermark(s.marks))
  {
    CoveredByGrowth(s.source, more, Watermark(s.marks));
  }

  predicate AtMost(a: Option<int>, b: Option<int>) {
    a.Some? ==> b.Some? && a.value <= b.value
  }

  lemma AtMostSelf(a: Option<int>)
    ensures AtMost(a, a)
  {
  }

  lemma AtMostThrough(a: Option<int>, b: Option<int>, c: Option<int>)
    requires AtMost(a, b) && AtMost(b, c)
    ensures AtMost(a, c)
  {
  }

  function Concat(parts: seq<seq<Row>>): seq<Row> {
    if parts == [] then [] else Concat(parts[..|parts| - 1]) + parts[|parts| - 1]
  }

  lemma NoArrivals(rows: seq<Row>, parts: seq<seq<Row>>)
    ensures rows + Concat(parts[..0]) == rows
  {
  }

  lemma ArrivalsGrow(rows: seq<Row>, parts: seq<seq<Row>>, n: nat)
    requires n < |parts|
    ensures rows + Concat(parts[..n + 1]) == (rows + Concat(parts[..n])) + parts[n]
  {
    assert parts[..n + 1][..n] == parts[..n];
  }

  /** What the loop knows, after the source has gained the next arrivals. */
  lemma Arrives(
      s: Stores, first: seq<Row>, parts: seq<seq<Row>>, n: nat, readings: seq<Read>, limit: nat, since: Option<int>)
    requires Valid(s) && n < |parts| && Increasing(first + Concat(parts)) && s.source == first + Concat(parts[..n])
    requires IsRecord(readings, limit, since, Watermark(s.marks), first, s.source)
    ensures var more := s.source + parts[n];
            && more == first + Concat(parts[..n + 1])
            && Valid(s.(source := more))
            && Covered(more, Watermark(s.marks)) == Covered(s.source, Watermark(s.marks))
            && IsRecord(readings, limit, since, Watermark(s.marks), first, more)
  {
    hide Valid, Covered, Watermark, IsRecord, Increasing, Concat;
    ArrivalsGrow(first, parts, n);
    IncreasingPrefix(first, parts, n + 1);
    GrowthKeeps(s, parts[n]);
    GrowthCovers(s, parts[n]);
    SourceGains(readings, limit, since, Watermark(s.marks), first, s.source, parts[n]);
  }

  lemma {:induction false} IncreasingPrefix(rows: seq<Row>, parts: seq<seq<Row>>, n: nat)
    requires n <= |parts| && Increasing(rows + Concat(parts))
    ensures Increasing(rows + Concat(parts[..n]))
    decreases |parts|
  {
    if n == |parts| {
      assert parts[..n] == parts;
    } else {
      var before, last := Concat(parts[..|parts| - 1]), parts[|parts| - 1];
      assert rows + Concat(parts) == (rows + before) + last;
      assert forall i | 0 <= i < |rows + before| :: (rows + before)[i] == (rows + Concat(parts))[i];
      IncreasingPrefix(rows, parts[..|parts| - 1], n);
      assert parts[..|parts| - 1][..n] == parts[..n];
    }
  }

  /** The readings start at one watermark and leave another behind. */
  predicate LeadsTo(readings: seq<Read>, first: Option<int>, last: Option<int>) {
    if readings == [] then last == first
    else readings[0].since == first && Follows(readings[|readings| - 1], readings[|readings| - 1].(since := last))
  }

  /** A history from one watermark to another, while the source grows from low to high. */
  ghost predicate IsRecord(
      readings: seq<Read>, limit: nat, first: Option<int>, last: Option<int>, low: seq<Row>, high: seq<Row>)
  {
    IsHistory(readings, limit) && LeadsTo(readings, first, last) && Gains(readings, low, high)
  }

  lemma NoReadings(limit: nat, watermark: Option<int>, rows: seq<Row>)
    ensures IsRecord([], limit, watermark, watermark, rows, rows)
  {
  }

  lemma SourceGains(
      readings: seq<Read>, limit: nat, first: Option<int>, last: Option<int>, low: seq<Row>, high: seq<Row>,
      more: seq<Row>)
    requires IsRecord(readings, limit, first, last, low, high)
    ensures IsRecord(readings, limit, first, last, low, high + more)
  {
    hide IsHistory;
  }

  lemma HistoryGrows(readings: seq<Read>, limit: nat, first: Option<int>, low: seq<Row>, read: Read)
    requires IsRecord(readings, limit, first, read.since, low, read.rows)
    requires IsPage(read.page, read.rows, read.since, limit)
    ensures IsRecord(readings + [read], limit, first, read.since, low, read.rows)
    ensures EndsShort(readings + [read], limit) <==> |read.page| < limit
  {
    hide IsPage;
  }

  lemma MovesOn(readings: seq<Read>, limit: nat, first: Option<int>, low: seq<Row>, read: Read)
    requires read.page != [] && IsRecord(readings + [read], limit, first, read.since, low, read.rows)
    ensures IsRecord(
              readings + [read], limit, first, Some(read.page[|read.page| - 1].createdAt), low, read.rows)
  {
    hide IsHistory, Gains;
  }

  /** The records of two runs, one after the other, are a record. */
  lemma RecordsJoin(
      a: seq<Read>, b: seq<Read>, limit: nat, first: Option<int>, between: Option<int>, last: Option<int>,
      low: seq<Row>, middle: seq<Row>, high: seq<Row>)
    requires IsRecord(a, limit, first, between, low, middle) && IsRecord(b, limit, between, last, middle, high)
    ensures IsRecord(a + b, limit, first, last, low, high)
  {
    hide IsHistory, LeadsTo, Gains;
    HistoriesJoin(a, b, limit, first, between, last);
    GainsJoin(a, b, low, middle, high);
  }

  lemma HistoriesJoin(
      a: seq<Read>, b: seq<Read>, limit: nat, first: Option<int>, between: Option<int>, last: Option<int>)
    requires IsHistory(a, limit) && LeadsTo(a, first, between) && IsHistory(b, limit) && LeadsTo(b, between, last)
    ensures IsHistory(a + b, limit) && LeadsTo(a + b, first, last)
  {
    hide IsPage;
    var all := a + b;
    forall i | 0 <= i < |all| - 1
      ensures Follows(all[i], all[i + 1])
    {
      if i >= |a| {
        assert Follows(b[i - |a|], b[i - |a| + 1]);
      }
    }
    if b == [] {
      assert all == a;
    } else {
      assert all[|all| - 1] == b[|b| - 1];
    }
  }

  lemma GainsJoin(a: seq<Read>, b: seq<Read>, low: seq<Row>, middle: seq<Row>, high: seq<Row>)
    requires Gains(a, low, middle) && Gains(b, middle, high)
    ensures Gains(a + b, low, high)
  {
    var all := a + b;
    forall i | 0 <= i < |all|
      ensures AllIn(low, all[i].rows) && AllIn(all[i].rows, high)
    {
      assert i >= |a| ==> all[i] == b[i - |a|];
    }
    forall i, j | 0 <= i <= j < |all|
      ensures AllIn(all[i].rows, all[j].rows)
    {
      assert i >= |a| ==> all[i] == b[i - |a|];
      assert j >= |a| ==> all[j] == b[j - |a|];
    }
  }

  // ----- the sync job

  /** The ledger database and the warehouse, as one run of the job finds and leaves them. */
  class Job {
    const calm: bool
    var source: seq<Row>
    var fact: seq<FactRow>
    var marks: seq<Mark>
    var clock: int
    ghost var extras: seq<Row>

    ghost function State(): Stores
      reads this
    {
      Stores(source, fact, marks, clock, extras)
    }

    /** calm: nothing kills the job, and no call to the warehouse fails. */
    constructor (source: seq<Row>, now: int, calm: bool)
      requires Increasing(source)
      ensures Valid(State()) && State() == Stores(source, [], [], now, []) && this.calm == calm
    {
      this.calm := calm;
      this.source, fact, marks, clock, extras := source, [], [], now, [];
      BelowUnique(source, None, 0);
    }

    method Now() returns (now: int)
      modifies `clock
      ensures now == clock && clock >= old(clock)
    {
      now :| now >= clock;
      clock := now;
    }

    /** client.insert: may fail before or after the warehouse has taken the rows. */
    method Insert(rows: seq<FactRow>) returns (ok: bool)
      modifies `fact
      ensures fact == old(fact) + rows || (!ok && fact == old(fact))
      ensures calm ==> ok
    {
      var taken: bool, answered: bool := *, *;
      taken, answered := taken || calm, answered || calm;
      if taken {
        fact := fact + rows;
      }
      ok := taken && answered;
    }

    /** load_transactions: whatever happens, a prefix of the rows has been inserted, all of them if it returns. */
    method LoadTransactions(rows: seq<Row>, batchSize: nat) returns (ok: bool, loaded: nat, ghost inserted: nat)
      requires batchSize > 0
      modifies `fact, `clock
      ensures clock >= old(clock)
      ensures inserted <= |rows| && RowsOf(fact) == RowsOf(old(fact)) + rows[..inserted]
      ensures ok ==> inserted == |rows| == loaded
      ensures calm ==> ok
    {
      ok, loaded, inserted := true, 0, 0;
      if rows == [] {
        return;
      }
      var now := Now();
      var start := 0;
      while start < |rows|
        invariant inserted == loaded == Min(start, |rows|)
        invariant RowsOf(fact) == RowsOf(old(fact)) + rows[..inserted] && clock >= old(clock)
      {
        var batch := rows[start..Min(start + batchSize, |rows|)];
        var stamped := seq(|batch|, i requires 0 <= i < |batch| => FactRow(batch[i], now));
        ghost var before := fact;
        ok := Insert(stamped);
        assert RowsOf(before + stamped) == RowsOf(before) + batch;
        assert rows[..start] + batch == rows[..start + |batch|];
        if fact != before {
          inserted := start + |batch|;
        }
        if !ok {
          return;
        }
        loaded := loaded + |batch|;
        start := start + batchSize;
      }
    }

    method SetWatermark(lastTs: int) returns (ok: bool)
      modifies `marks, `clock
      ensures clock >= old(clock)
      ensures marks == old(marks) + [Mark(lastTs, clock)] || (!ok && marks == old(marks))
      ensures calm ==> ok
    {
      var now := Now();
      var taken: bool, answered: bool := *, *;
      taken, answered := taken || calm, answered || calm;
      if taken {
        marks := marks + [Mark(lastTs, now)];
      }
      ok := taken && answered;
    }

    /**
      What a run does with a page: its rows are loaded, and the watermark moves to its end. An interruption leaves what
      was inserted, or the watermark moved and the call failed all the same.
     */
    method LoadPage(rows: seq<Row>, pageSize: nat, batchSize: nat)
      returns (ok: bool, loaded: nat, ghost lost: seq<Row>)
      requires pageSize > 0 && batchSize > 0 && Valid(State())
      requires rows == Page(source, Watermark(marks), pageSize) && rows != []
      modifies `fact, `marks, `clock, `extras
      ensures Valid(State()) && extras == old(extras) + lost
      ensures marks == old(marks) ==> !ok && lost <= rows
      ensures calm ==> ok
      ensures marks != old(marks) ==>
                && lost == [] && loaded == |rows| && Watermark(marks) == Some(rows[|rows| - 1].createdAt)
                && AtMost(Watermark(old(marks)), Watermark(marks))
                && Covered(source, Watermark(marks)) == Covered(source, Watermark(old(marks))) + rows
                && |Newer(source, Watermark(marks))| == |Newer(source, Watermark(old(marks)))| - |rows|
    {
      hide Page, Newer, Covered, Watermark, Valid, RowsOf, Below, Increasing, AtMost;
      ghost var before := State();
      ValidSource(before);
      PageOfSource(source, Watermark(marks), pageSize);
      ghost var inserted;
      ok, loaded, inserted := LoadTransactions(rows, batchSize);
      lost := rows[..inserted];
      extras := extras + lost;
      LoadKeeps(before, State(), lost);
      if !ok {
        return;
      }
      assert lost == rows;
      ghost var during := State();
      ok := SetWatermark(rows[|rows| - 1].createdAt);
      if marks == during.marks {
        LoadKeeps(before, State(), lost);
      } else {
        extras, lost := before.extras, [];
        MarkKeeps(during, State(), pageSize, before.extras);
        MarkIs(during, Mark(rows[|rows| - 1].createdAt, clock));
      }
    }

    /**
      One run of the job, interrupted anywhere or ending cleanly; arrivals[i] is what the source gains before read i.
      The watermark never goes back. A clean end leaves FINAL equal to what the last read could see and adds no extras;
      an interruption leaves as extras the part of one page it had inserted but not yet vouched for. The readings are a
      history from the old watermark to the new one.
     */
    method Run(pageSize: nat, batchSize: nat, arrivals: seq<seq<Row>>)
      returns (ok: bool, total: nat, ghost seen: nat, ghost lost: seq<Row>, ghost readings: seq<Read>)
      requires pageSize > 0 && batchSize > 0
      requires Valid(State()) && Increasing(source + Concat(arrivals))
      modifies this
      ensures Valid(State())
      ensures seen <= |arrivals| && source == old(source) + Concat(arrivals[..seen])
      ensures AtMost(Watermark(old(marks)), Watermark(marks))
      ensures extras == old(extras) + lost && lost <= Page(source, Watermark(marks), pageSize)
      ensures ok ==> lost == [] && Covered(source, Watermark(marks)) == source
      ensures ok ==> Final(fact) == RowSet(source)
      ensures ok ==> |Covered(old(source), Watermark(old(marks)))| + total == |source|
      ensures IsRecord(readings, pageSize, Watermark(old(marks)), Watermark(marks), old(source), source)
      ensures ok ==> EndsShort(readings, pageSize)
      ensures calm ==> ok
    {
      hide Page, Newer, Covered, Watermark, Valid, RowsOf, Final, Below, RowSet, Increasing, IsRecord, IsPage,
           Concat, AtMost, Min, EndsShort;
      AtMostSelf(Watermark(marks));
      ghost var start := |Covered(source, Watermark(marks))|;
      seen, total, lost, ok, readings := 0, 0, [], false, [];
      var watermark := Watermark(marks);
      var next := 0;
      NoArrivals(source, arrivals);
      NoReadings(pageSize, watermark, source);
      while true
        invariant Valid(State()) && watermark == Watermark(marks)
        invariant next <= |arrivals| && source == old(source) + Concat(arrivals[..next])
        invariant extras == old(extras) && lost == []
        invariant AtMost(Watermark(old(marks)), watermark)
        invariant |Covered(source, watermark)| == start + total
        invariant IsRecord(readings, pageSize, Watermark(old(marks)), watermark, old(source), source)
        decreases |arrivals| - next, |Newer(source, watermark)|
      {
        var killed: bool := *;
        if killed && !calm {
          ok, seen := false, next;
          return;
        }
        if next < |arrivals| {
          Arrives(State(), old(source), arrivals, next, readings, pageSize, Watermark(old(marks)));
          source := source + arrivals[next];
          next := next + 1;
        }
        seen := next;
        ghost var before := State();
        ValidSource(before);
        var rows := Page(source, watermark, pageSize);
        PageAdvances(source, watermark, pageSize);
        PageIsPage(source, watermark, pageSize);
        ghost var earlier, read := readings, Read(source, watermark, rows);
        HistoryGrows(earlier, pageSize, Watermark(old(marks)), old(source), read);
        readings := earlier + [read];
        if rows == [] {
          ok := true;
          break;
        }
        ghost var marked := marks;
        var loaded;
        ok, loaded, lost := LoadPage(rows, pageSize, batchSize);
        total := total + loaded;
        if marks != marked {
          AtMostThrough(Watermark(old(marks)), Watermark(marked), Watermark(marks));
          MovesOn(earlier, pageSize, Watermark(old(marks)), old(source), read);
        }
        if !ok {
          return;
        }
        watermark := Some(rows[|rows| - 1].createdAt);
        if |rows| < pageSize {
          break;
        }
        ok := false;
      }
      FinalIsSource(State());
    }
  }
}
