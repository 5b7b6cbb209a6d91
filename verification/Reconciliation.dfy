/** Ledger against settlement file (ops/reconciliation.py). */
module Reconciliation {

  // ----- the order Python sorts strings in

  predicate Less(a: string, b: string) {
    b != "" && (a == "" || a[0] < b[0] || (a[0] == b[0] && Less(a[1..], b[1..])))
  }

  lemma {:induction false} LessTotal(a: string, b: string)
    ensures a == b || Less(a, b) || Less(b, a)
    ensures !(Less(a, b) && Less(b, a)) && !Less(a, a)
  {
    if a != "" && b != "" {
      LessTotal(a[1..], b[1..]);
      if a[0] == b[0] && a[1..] == b[1..] {
        assert a == [a[0]] + a[1..] == b;
      }
    }
    if a != "" {
      LessIrreflexive(a);
    }
  }

  lemma {:induction false} LessIrreflexive(a: string)
    ensures !Less(a, a)
  {
    if a != "" {
      LessIrreflexive(a[1..]);
    }
  }

  lemma {:induction false} LessTransitive(a: string, b: string, c: string)
    requires Less(a, b) && Less(b, c)
    ensures Less(a, c)
  {
    if a != "" && a[0] == b[0] && b[0] == c[0] {
      LessTransitive(a[1..], b[1..], c[1..]);
    }
  }

  predicate Ascending(s: seq<string>) {
    forall i, j | 0 <= i < j < |s| :: Less(s[i], s[j])
  }

  function Insert(s: seq<string>, x: string): seq<string> {
    if s == [] || Less(x, s[0]) then [x] + s else [s[0]] + Insert(s[1..], x)
  }

  lemma {:induction false} InsertKeepsOrder(s: seq<string>, x: string)
    requires Ascending(s) && x !in s
    ensures Ascending(Insert(s, x))
    ensures forall y :: y in Insert(s, x) <==> y in s || y == x
  {
    if s != [] {
      LessTotal(x, s[0]);
      if Less(x, s[0]) {
        forall i | 1 <= i < |s|
          ensures Less(x, s[i])
        {
          LessTransitive(x, s[0], s[i]);
        }
      } else {
        InsertKeepsOrder(s[1..], x);
        var r := Insert(s[1..], x);
        forall i | 0 <= i < |r|
          ensures Less(s[0], r[i])
        {
          assert r[i] in r;
        }
      }
    }
  }

  /** sorted(rrns) */
  method Sorted(rrns: set<string>) returns (s: seq<string>)
    ensures Ascending(s) && (set x | x in s) == rrns
  {
    s := [];
    var todo := rrns;
    while todo != {}
      invariant todo <= rrns && Ascending(s)
      invariant forall x :: x in s <==> x in rrns - todo
    {
      var x :| x in todo;
      InsertKeepsOrder(s, x);
      s := Insert(s, x);
      todo := todo - {x};
    }
  }

  // ----- the four lists

  datatype SettlementEntry = SettlementEntry(rrn: string, amountCents: int)

  datatype Mismatch = Mismatch(rrn: string, ledgerAmountCents: int, settlementAmountCents: int)

  datatype Result = Result(
    matched: seq<string>, onlyInLedger: seq<string>, onlyInSettlement: seq<string>, amountMismatches: seq<Mismatch>)
  {
    predicate IsClean() {
      onlyInLedger == [] && onlyInSettlement == [] && amountMismatches == []
    }

    /** The RRNs of the mismatches. */
    function Mismatched(): (r: seq<string>)
      ensures |r| == |amountMismatches|
    {
      seq(|amountMismatches|, i requires 0 <= i < |amountMismatches| => amountMismatches[i].rrn)
    }
  }

  /** {e["rrn"]: e["amount_cents"] for e in entries}: the last entry of an RRN wins. */
  function ByRrn(entries: seq<SettlementEntry>): map<string, int> {
    if entries == [] then map[]
    else
      var e := entries[|entries| - 1];
      ByRrn(entries[..|entries| - 1])[e.rrn := e.amountCents]
  }

  /** An RRN has the amount of its last entry in the file. */
  lemma {:induction false} ByRrnExact(entries: seq<SettlementEntry>, rrn: string)
    ensures rrn in ByRrn(entries) <==> exists i :: 0 <= i < |entries| && entries[i].rrn == rrn
    ensures forall i | 0 <= i < |entries| && entries[i].rrn == rrn
                       && (forall j | i < j < |entries| :: entries[j].rrn != rrn) ::
              rrn in ByRrn(entries) && ByRrn(entries)[rrn] == entries[i].amountCents
  {
    if entries != [] {
      var before, e := entries[..|entries| - 1], entries[|entries| - 1];
      ByRrnExact(before, rrn);
      assert forall i | 0 <= i < |before| :: before[i] == entries[i];
    }
  }

  /** One turn of the loop. */
  function Place(r: Result, ledger: map<string, int>, settlement: map<string, int>, rrn: string): Result {
    if rrn in ledger && rrn in settlement then
      if ledger[rrn] == settlement[rrn] then r.(matched := r.matched + [rrn])
      else r.(amountMismatches := r.amountMismatches + [Mismatch(rrn, ledger[rrn], settlement[rrn])])
    else if rrn in ledger then r.(onlyInLedger := r.onlyInLedger + [rrn])
    else if rrn in settlement then r.(onlyInSettlement := r.onlyInSettlement + [rrn])
    else r
  }

  function PlaceAll(ledger: map<string, int>, settlement: map<string, int>, rrns: seq<string>): Result {
    if rrns == [] then Result([], [], [], [])
    else Place(PlaceAll(ledger, settlement, rrns[..|rrns| - 1]), ledger, settlement, rrns[|rrns| - 1])
  }

  /** A list holds, in ascending order, exactly the RRNs among rrns that belong in it. */
  ghost predicate Holds(list: seq<string>, rrns: seq<string>, belongs: string -> bool) {
    Ascending(list) && forall x :: x in list <==> x in rrns && belongs(x)
  }

  lemma AppendHolds(list: seq<string>, rrns: seq<string>, belongs: string -> bool)
    requires rrns != [] && Ascending(rrns)
    requires Holds(list, rrns[..|rrns| - 1], belongs)
    ensures var last := rrns[|rrns| - 1];
            Holds(if belongs(last) then list + [last] else list, rrns, belongs)
  {
    var before, last := rrns[..|rrns| - 1], rrns[|rrns| - 1];
    assert rrns == before + [last];
    forall i | 0 <= i < |list|
      ensures Less(list[i], last)
    {
      assert list[i] in before;
    }
  }

  function IsMatched(ledger: map<string, int>, settlement: map<string, int>): string -> bool {
    x => x in ledger && x in settlement && ledger[x] == settlement[x]
  }

  function IsMismatched(ledger: map<string, int>, settlement: map<string, int>): string -> bool {
    x => x in ledger && x in settlement && ledger[x] != settlement[x]
  }

  function IsOnlyIn(one: map<string, int>, other: map<string, int>): string -> bool {
    x => x in one && x !in other
  }

  /** Each of the four lists holds its RRNs, sorted; a mismatch carries both amounts. */
  ghost predicate IsPartition(r: Result, ledger: map<string, int>, settlement: map<string, int>, rrns: seq<string>) {
    && Holds(r.matched, rrns, IsMatched(ledger, settlement))
    && Holds(r.onlyInLedger, rrns, IsOnlyIn(ledger, settlement))
    && Holds(r.onlyInSettlement, rrns, IsOnlyIn(settlement, ledger))
    && Holds(r.Mismatched(), rrns, IsMismatched(ledger, settlement))
    && forall m | m in r.amountMismatches ::
         m.rrn in ledger && m.rrn in settlement &&
         m.ledgerAmountCents == ledger[m.rrn] && m.settlementAmountCents == settlement[m.rrn]
  }

  lemma {:induction false} PlaceAllPartitions(ledger: map<string, int>, settlement: map<string, int>, rrns: seq<string>)
    requires Ascending(rrns)
    ensures IsPartition(PlaceAll(ledger, settlement, rrns), ledger, settlement, rrns)
  {
    hide Holds;
    if rrns == [] {
      NothingHolds(IsMatched(ledger, settlement));
      NothingHolds(IsOnlyIn(ledger, settlement));
      NothingHolds(IsOnlyIn(settlement, ledger));
      NothingHolds(IsMismatched(ledger, settlement));
      assert PlaceAll(ledger, settlement, rrns).Mismatched() == [];
    } else {
      var before, last := rrns[..|rrns| - 1], rrns[|rrns| - 1];
      PlaceAllPartitions(ledger, settlement, before);
      var p, r := PlaceAll(ledger, settlement, before), PlaceAll(ledger, settlement, rrns);
      AppendHolds(p.matched, rrns, IsMatched(ledger, settlement));
      AppendHolds(p.onlyInLedger, rrns, IsOnlyIn(ledger, settlement));
      AppendHolds(p.onlyInSettlement, rrns, IsOnlyIn(settlement, ledger));
      AppendHolds(p.Mismatched(), rrns, IsMismatched(ledger, settlement));
      assert r.Mismatched() ==
             if IsMismatched(ledger, settlement)(last) then p.Mismatched() + [last] else p.Mismatched();
    }
  }

  /** What each list holds, in sorted order. */
  lemma ListsExact(r: Result, ledger: map<string, int>, settlement: map<string, int>, rrns: seq<string>)
    requires IsPartition(r, ledger, settlement, rrns)
    requires (set y | y in rrns) == ledger.Keys + settlement.Keys
    ensures forall x :: x in r.matched <==> x in ledger && x in settlement && ledger[x] == settlement[x]
    ensures forall x :: x in r.onlyInLedger <==> x in ledger && x !in settlement
    ensures forall x :: x in r.onlyInSettlement <==> x in settlement && x !in ledger
    ensures forall m: Mismatch :: m in r.amountMismatches <==>
                          && m.rrn in ledger && m.rrn in settlement && ledger[m.rrn] != settlement[m.rrn]
                          && m.ledgerAmountCents == ledger[m.rrn] && m.settlementAmountCents == settlement[m.rrn]
    ensures forall i, j | 0 <= i < j < |r.matched| :: Less(r.matched[i], r.matched[j])
    ensures forall i, j | 0 <= i < j < |r.onlyInLedger| :: Less(r.onlyInLedger[i], r.onlyInLedger[j])
    ensures forall i, j | 0 <= i < j < |r.onlyInSettlement| :: Less(r.onlyInSettlement[i], r.onlyInSettlement[j])
    ensures forall i, j | 0 <= i < j < |r.amountMismatches| ::
              Less(r.amountMismatches[i].rrn, r.amountMismatches[j].rrn)
  {
    hide Less;
    assert forall x :: x in rrns <==> x in ledger.Keys + settlement.Keys;
    forall m: Mismatch | m.rrn in ledger && m.rrn in settlement && ledger[m.rrn] != settlement[m.rrn]
               && m.ledgerAmountCents == ledger[m.rrn] && m.settlementAmountCents == settlement[m.rrn]
      ensures m in r.amountMismatches
    {
      assert m.rrn in r.Mismatched();
      var i :| 0 <= i < |r.Mismatched()| && r.Mismatched()[i] == m.rrn;
      assert r.amountMismatches[i] == m;
    }
    forall m | m in r.amountMismatches
      ensures ledger[m.rrn] != settlement[m.rrn]
    {
      var i :| 0 <= i < |r.amountMismatches| && r.amountMismatches[i] == m;
      assert r.Mismatched()[i] == m.rrn && m.rrn in r.Mismatched();
    }
    forall i, j | 0 <= i < j < |r.amountMismatches|
      ensures Less(r.amountMismatches[i].rrn, r.amountMismatches[j].rrn)
    {
      assert Less(r.Mismatched()[i], r.Mismatched()[j]);
    }
  }

  /** The first character that differs decides, and otherwise the shorter text comes first. */
  lemma {:induction false} LessExact(a: string, b: string)
    ensures Less(a, b) <==>
            exists k :: && 0 <= k < |b| && k <= |a| && a[..k] == b[..k] && (k == |a| || a[k] < b[k])
  {
    if Less(a, b) {
      if a != "" && a[0] == b[0] {
        LessExact(a[1..], b[1..]);
        var k :| 0 <= k < |b| - 1 && k <= |a| - 1
                 && a[1..][..k] == b[1..][..k] && (k == |a| - 1 || a[1..][k] < b[1..][k]);
        assert a[..k + 1] == [a[0]] + a[1..][..k] == b[..k + 1];
      } else {
        assert a[..0] == b[..0];
      }
    } else if k :| 0 <= k < |b| && k <= |a| && a[..k] == b[..k] && (k == |a| || a[k] < b[k]) {
      if k > 0 {
        assert a[0] == a[..k][0] == b[..k][0] == b[0];
        assert a[1..][..k - 1] == a[..k][1..] == b[..k][1..] == b[1..][..k - 1];
        LessExact(a[1..], b[1..]);
      }
    }
  }

  lemma NothingHolds(belongs: string -> bool)
    ensures Holds([], [], belongs)
  {
  }

  /** Every RRN of either side is in exactly one of the four lists. */
  lemma ExactlyOneList(r: Result, ledger: map<string, int>, settlement: map<string, int>, rrns: seq<string>, x: string)
    requires IsPartition(r, ledger, settlement, rrns)
    requires (set y | y in rrns) == ledger.Keys + settlement.Keys
    ensures x in ledger || x in settlement <==>
            x in r.matched || x in r.onlyInLedger || x in r.onlyInSettlement || x in r.Mismatched()
    ensures x in r.matched ==> x !in r.onlyInLedger && x !in r.onlyInSettlement && x !in r.Mismatched()
    ensures x in r.onlyInLedger ==> x !in r.onlyInSettlement && x !in r.Mismatched()
    ensures x in r.onlyInSettlement ==> x !in r.Mismatched()
  {
    assert x in rrns <==> x in ledger.Keys + settlement.Keys;
  }

  /** A reconciliation is clean exactly when both sides agree on every RRN and amount. */
  lemma CleanExact(r: Result, ledger: map<string, int>, settlement: map<string, int>, rrns: seq<string>)
    requires IsPartition(r, ledger, settlement, rrns)
    requires (set y | y in rrns) == ledger.Keys + settlement.Keys
    ensures r.IsClean() <==> ledger == settlement
  {
    assert forall x :: x in rrns <==> x in ledger.Keys + settlement.Keys;
    EmptyExact(r.onlyInLedger);
    EmptyExact(r.onlyInSettlement);
    EmptyExact(r.Mismatched());
    if r.IsClean() {
      forall x
        ensures x in ledger <==> x in settlement
      {
        assert x in r.onlyInLedger <==> x in rrns && IsOnlyIn(ledger, settlement)(x);
        assert x in r.onlyInSettlement <==> x in rrns && IsOnlyIn(settlement, ledger)(x);
      }
      forall x | x in ledger
        ensures ledger[x] == settlement[x]
      {
        assert x in r.Mismatched() <==> x in rrns && IsMismatched(ledger, settlement)(x);
      }
      assert ledger == settlement;
    }
  }

  lemma EmptyExact(s: seq<string>)
    ensures s == [] <==> forall x :: x !in s
  {
    if s != [] {
      assert s[0] in s;
    }
  }

  // ----- totals

  /** All amounts of a map, added up. */
  ghost function MapTotal(m: map<string, int>): int
    decreases |m|
  {
    if m == map[] then 0
    else
      var k :| k in m;
      m[k] + MapTotal(m - {k})
  }

  lemma {:induction false} TakeOut(m: map<string, int>, k: string)
    requires k in m
    ensures MapTotal(m) == m[k] + MapTotal(m - {k})
    decreases |m|
  {
    var j :| j in m && MapTotal(m) == m[j] + MapTotal(m - {j});
    if j != k {
      TakeOut(m - {j}, k);
      TakeOut(m - {k}, j);
      assert m - {j} - {k} == m - {k} - {j};
    }
  }

  /** The amounts of the listed RRNs, added up. */
  function Sum(m: map<string, int>, rrns: seq<string>): int {
    if rrns == [] then 0
    else Sum(m, rrns[..|rrns| - 1]) + if rrns[|rrns| - 1] in m then m[rrns[|rrns| - 1]] else 0
  }

  function Differences(mismatches: seq<Mismatch>): int {
    if mismatches == [] then 0
    else
      var m := mismatches[|mismatches| - 1];
      Differences(mismatches[..|mismatches| - 1]) + m.ledgerAmountCents - m.settlementAmountCents
  }

  lemma {:induction false} SumIsTotal(m: map<string, int>, rrns: seq<string>)
    requires Ascending(rrns) && forall x | x in m :: x in rrns
    ensures Sum(m, rrns) == MapTotal(m)
    decreases |rrns|
  {
    if rrns == [] {
      assert m == map[];
    } else {
      var before, last := rrns[..|rrns| - 1], rrns[|rrns| - 1];
      assert rrns == before + [last];
      LastIsNew(rrns);
      SumIsTotal(m - {last}, before);
      SumWithout(m, before, last);
      if last in m {
        TakeOut(m, last);
      } else {
        assert m - {last} == m;
      }
    }
  }

  lemma LastIsNew(rrns: seq<string>)
    requires Ascending(rrns) && rrns != []
    ensures rrns[|rrns| - 1] !in rrns[..|rrns| - 1]
  {
    LessTotal(rrns[|rrns| - 1], rrns[|rrns| - 1]);
  }

  lemma {:induction false} SumWithout(m: map<string, int>, rrns: seq<string>, k: string)
    requires k !in rrns
    ensures Sum(m - {k}, rrns) == Sum(m, rrns)
  {
    if rrns != [] {
      assert rrns[|rrns| - 1] in rrns;
      SumWithout(m, rrns[..|rrns| - 1], k);
    }
  }

  lemma SumOfMore(m: map<string, int>, rrns: seq<string>, x: string)
    ensures Sum(m, rrns + [x]) == Sum(m, rrns) + if x in m then m[x] else 0
  {
    assert (rrns + [x])[..|rrns|] == rrns;
  }

  lemma {:induction false} ListTotals(ledger: map<string, int>, settlement: map<string, int>, rrns: seq<string>)
    ensures var r := PlaceAll(ledger, settlement, rrns);
            Sum(ledger, rrns) - Sum(settlement, rrns) ==
            Sum(ledger, r.onlyInLedger) - Sum(settlement, r.onlyInSettlement) + Differences(r.amountMismatches)
  {
    if rrns != [] {
      var before, last := rrns[..|rrns| - 1], rrns[|rrns| - 1];
      ListTotals(ledger, settlement, before);
      var p := PlaceAll(ledger, settlement, before);
      SumOfMore(ledger, p.onlyInLedger, last);
      SumOfMore(settlement, p.onlyInSettlement, last);
      if last in ledger && last in settlement {
        var m := Mismatch(last, ledger[last], settlement[last]);
        assert (p.amountMismatches + [m])[..|p.amountMismatches|] == p.amountMismatches;
      }
    }
  }

  /** The totals of the two sides differ by exactly what the reconciliation reports. */
  lemma TotalsReconcile(ledger: map<string, int>, settlement: map<string, int>, rrns: seq<string>)
    requires Ascending(rrns) && (set y | y in rrns) == ledger.Keys + settlement.Keys
    ensures var r := PlaceAll(ledger, settlement, rrns);
            MapTotal(ledger) - MapTotal(settlement) ==
            Sum(ledger, r.onlyInLedger) - Sum(settlement, r.onlyInSettlement) + Differences(r.amountMismatches)
  {
    assert forall x :: x in rrns <==> x in ledger.Keys + settlement.Keys;
    SumIsTotal(ledger, rrns);
    SumIsTotal(settlement, rrns);
    ListTotals(ledger, settlement, rrns);
  }

  /** reconcile: rrns is the sorted union of both sides. */
  method Reconcile(ledgerByRrn: map<string, int>, settlementEntries: seq<SettlementEntry>)
    returns (result: Result, ghost rrns: seq<string>)
    ensures Ascending(rrns) && (set y | y in rrns) == ledgerByRrn.Keys + ByRrn(settlementEntries).Keys
    ensures result == PlaceAll(ledgerByRrn, ByRrn(settlementEntries), rrns)
    ensures IsPartition(result, ledgerByRrn, ByRrn(settlementEntries), rrns)
    ensures result.IsClean() <==> ledgerByRrn == ByRrn(settlementEntries)
  {
    hide IsPartition;
    var settlementByRrn := ByRrn(settlementEntries);
    var sorted := Sorted(ledgerByRrn.Keys + settlementByRrn.Keys);
    rrns := sorted;
    result := Result([], [], [], []);
    for i := 0 to |sorted|
      invariant result == PlaceAll(ledgerByRrn, settlementByRrn, sorted[..i])
    {
      var rrn := sorted[i];
      assert sorted[..i + 1][..i] == sorted[..i];
      if rrn in ledgerByRrn && rrn in settlementByRrn {
        if ledgerByRrn[rrn] == settlementByRrn[rrn] {
          result := result.(matched := result.matched + [rrn]);
        } else {
          result := result.(amountMismatches :=
            result.amountMismatches + [Mismatch(rrn, ledgerByRrn[rrn], settlementByRrn[rrn])]);
        }
      } else if rrn in ledgerByRrn {
        result := result.(onlyInLedger := result.onlyInLedger + [rrn]);
      } else if rrn in settlementByRrn {
        result := result.(onlyInSettlement := result.onlyInSettlement + [rrn]);
      }
    }
    assert sorted[..|sorted|] == sorted;
    PlaceAllPartitions(ledgerByRrn, settlementByRrn, sorted);
    CleanExact(result, ledgerByRrn, settlementByRrn, sorted);
  }
}
