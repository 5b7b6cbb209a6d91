/** The double-entry ledger (ledger/service.py over the tables of ledger/db.py). */
module Ledger {
  import opened Wrappers

  datatype EntryType = Debit | Credit

  /** A row of transactions. */
  datatype Transaction = Transaction(amountCents: int, createdAt: int)

  /** A row of ledger_entries; the rows are kept in order of their autoincremented id. */
  datatype Entry = Entry(rrn: string, accountId: string, entryType: EntryType, amountCents: int)

  datatype Tables = Tables(accounts: set<string>, transactions: map<string, Transaction>, entries: seq<Entry>)

  /** record_purchase's two answers, and the IntegrityError it lets through. */
  datatype Outcome = Recorded | AlreadyRecorded | ForeignKeyError

  // ----- one journal entry

  function Posting(rrn: string, debit: string, credit: string, cents: int): seq<Entry> {
    [Entry(rrn, debit, Debit, cents), Entry(rrn, credit, Credit, cents)]
  }

  /** record_purchase as one atomic change: the primary key is checked first, then the accounts. */
  function Record(t: Tables, rrn: string, debit: string, credit: string, cents: int, now: int): (Tables, Outcome) {
    if rrn in t.transactions then (t, AlreadyRecorded)
    else if debit !in t.accounts || credit !in t.accounts then (t, ForeignKeyError)
    else
      (t.(transactions := t.transactions[rrn := Transaction(cents, now)],
          entries := t.entries + Posting(rrn, debit, credit, cents)),
       Recorded)
  }

  // ----- balances

  function Signed(e: Entry): int {
    if e.entryType == Credit then e.amountCents else -e.amountCents
  }

  /** get_balance: credits minus debits of one account. */
  function Balance(entries: seq<Entry>, accountId: string): int {
    if entries == [] then 0
    else
      var e := entries[|entries| - 1];
      Balance(entries[..|entries| - 1], accountId) + if e.accountId == accountId then Signed(e) else 0
  }

  function Total(entries: seq<Entry>, entryType: EntryType): int {
    if entries == [] then 0
    else
      var e := entries[|entries| - 1];
      Total(entries[..|entries| - 1], entryType) + if e.entryType == entryType then e.amountCents else 0
  }

  predicate IsBalanced(t: Tables) {
    Total(t.entries, Debit) == Total(t.entries, Credit)
  }

  /** The balances of a set of accounts, added up. */
  ghost function SumOfBalances(entries: seq<Entry>, accounts: set<string>): int {
    if accounts == {} then 0
    else
      var a :| a in accounts;
      Balance(entries, a) + SumOfBalances(entries, accounts - {a})
  }

  // ----- the invariant of the books

  /** The entries of one transaction, in order. */
  function EntriesOf(entries: seq<Entry>, rrn: string): seq<Entry> {
    if entries == [] then []
    else
      var e := entries[|entries| - 1];
      EntriesOf(entries[..|entries| - 1], rrn) + if e.rrn == rrn then [e] else []
  }

  /** One debit and then one credit, both of the transaction's amount. */
  ghost predicate IsPosting(entries: seq<Entry>, rrn: string, cents: int) {
    exists debit, credit :: entries == [Entry(rrn, debit, Debit, cents), Entry(rrn, credit, Credit, cents)]
  }

  predicate NoOrphans(t: Tables) {
    forall e | e in t.entries :: e.rrn in t.transactions && e.accountId in t.accounts
  }

  ghost predicate Valid(t: Tables) {
    && (forall rrn | rrn in t.transactions ::
          IsPosting(EntriesOf(t.entries, rrn), rrn, t.transactions[rrn].amountCents))
    && NoOrphans(t)
    && IsBalanced(t)
  }

  lemma EntriesOfAppend(entries: seq<Entry>, e: Entry, rrn: string)
    ensures EntriesOf(entries + [e], rrn) == EntriesOf(entries, rrn) + if e.rrn == rrn then [e] else []
    ensures Total(entries + [e], Debit) == Total(entries, Debit) + if e.entryType == Debit then e.amountCents else 0
    ensures Total(entries + [e], Credit) == Total(entries, Credit) + if e.entryType == Credit then e.amountCents else 0
  {
    assert (entries + [e])[..|entries|] == entries;
  }

  lemma {:induction false} NoEntries(entries: seq<Entry>, rrn: string)
    requires forall e | e in entries :: e.rrn != rrn
    ensures EntriesOf(entries, rrn) == []
  {
    if entries != [] {
      NoEntries(entries[..|entries| - 1], rrn);
    }
  }

  lemma PostingAppended(entries: seq<Entry>, rrn: string, debit: string, credit: string, cents: int, other: string)
    ensures var all := entries + Posting(rrn, debit, credit, cents);
            && Total(all, Debit) == Total(entries, Debit) + cents
            && Total(all, Credit) == Total(entries, Credit) + cents
            && EntriesOf(all, other) ==
               EntriesOf(entries, other) + if other == rrn then Posting(rrn, debit, credit, cents) else []
  {
    var d, c := Entry(rrn, debit, Debit, cents), Entry(rrn, credit, Credit, cents);
    assert entries + Posting(rrn, debit, credit, cents) == entries + [d] + [c];
    EntriesOfAppend(entries, d, other);
    EntriesOfAppend(entries + [d], c, other);
    assert Posting(rrn, debit, credit, cents) == [d] + [c];
    assert EntriesOf(entries, other) + ([d] + [c]) == (EntriesOf(entries, other) + [d]) + [c];
    assert EntriesOf(entries, other) + [] + [] == EntriesOf(entries, other);
  }

  /** A recorded call posts exactly its own two entries, and no entry of another RRN changes. */
  lemma RecordPosts(t: Tables, rrn: string, debit: string, credit: string, cents: int, now: int)
    requires Valid(t) && Record(t, rrn, debit, credit, cents, now).1.Recorded?
    ensures var u := Record(t, rrn, debit, credit, cents, now).0;
            && u.transactions == t.transactions[rrn := Transaction(cents, now)] && u.accounts == t.accounts
            && EntriesOf(u.entries, rrn) == [Entry(rrn, debit, Debit, cents), Entry(rrn, credit, Credit, cents)]
            && forall r | r != rrn :: EntriesOf(u.entries, r) == EntriesOf(t.entries, r)
  {
    PostingAppended(t.entries, rrn, debit, credit, cents, rrn);
    NoEntries(t.entries, rrn);
    var u := Record(t, rrn, debit, credit, cents, now).0;
    forall r | r != rrn
      ensures EntriesOf(u.entries, r) == EntriesOf(t.entries, r)
    {
      PostingAppended(t.entries, rrn, debit, credit, cents, r);
    }
  }

  lemma RecordedPostings(t: Tables, rrn: string, debit: string, credit: string, cents: int, now: int, r: string)
    requires Valid(t) && Record(t, rrn, debit, credit, cents, now).1.Recorded?
    requires r in Record(t, rrn, debit, credit, cents, now).0.transactions
    ensures var u := Record(t, rrn, debit, credit, cents, now).0;
            IsPosting(EntriesOf(u.entries, r), r, u.transactions[r].amountCents)
  {
    hide EntriesOf, Total, Posting;
    RecordPosts(t, rrn, debit, credit, cents, now);
    assert r != rrn ==> IsPosting(EntriesOf(t.entries, r), r, t.transactions[r].amountCents);
  }

  lemma RecordedNoOrphans(t: Tables, rrn: string, debit: string, credit: string, cents: int, now: int)
    requires NoOrphans(t) && Record(t, rrn, debit, credit, cents, now).1.Recorded?
    ensures NoOrphans(Record(t, rrn, debit, credit, cents, now).0)
  {
    var posting := Posting(rrn, debit, credit, cents);
    assert forall e | e in t.entries + posting :: e in t.entries || e == posting[0] || e == posting[1];
  }

  /** Recording keeps the books; an RRN already recorded or an unknown account changes nothing. */
  lemma RecordKeepsBooks(t: Tables, rrn: string, debit: string, credit: string, cents: int, now: int)
    requires Valid(t)
    ensures Valid(Record(t, rrn, debit, credit, cents, now).0)
    ensures Record(t, rrn, debit, credit, cents, now).1 != Recorded ==>
              Record(t, rrn, debit, credit, cents, now).0 == t
    ensures Record(t, rrn, debit, credit, cents, now).1.Recorded? <==>
              rrn !in t.transactions && debit in t.accounts && credit in t.accounts
  {
    hide EntriesOf, Total, Posting, IsPosting, NoOrphans;
    var (u, outcome) := Record(t, rrn, debit, credit, cents, now);
    if outcome.Recorded? {
      PostingAppended(t.entries, rrn, debit, credit, cents, rrn);
      RecordedNoOrphans(t, rrn, debit, credit, cents, now);
      forall r | r in u.transactions
        ensures IsPosting(EntriesOf(u.entries, r), r, u.transactions[r].amountCents)
      {
        RecordedPostings(t, rrn, debit, credit, cents, now, r);
      }
    }
  }

  /**
    A recorded call takes the amount from the account debited and gives it to the account credited, which may be the
    same; no other balance moves. A call that is not recorded moves none.
   */
  lemma BalanceMoves(t: Tables, rrn: string, debit: string, credit: string, cents: int, now: int, a: string)
    ensures var (u, outcome) := Record(t, rrn, debit, credit, cents, now);
            Balance(u.entries, a) - Balance(t.entries, a) ==
            if !outcome.Recorded? || debit == credit then 0
            else if a == debit then -cents
            else if a == credit then cents
            else 0
  {
    var d, c := Entry(rrn, debit, Debit, cents), Entry(rrn, credit, Credit, cents);
    var (u, outcome) := Record(t, rrn, debit, credit, cents, now);
    if outcome.Recorded? {
      assert u.entries == t.entries + [d] + [c];
      BalanceOfMore(t.entries, d, a);
      BalanceOfMore(t.entries + [d], c, a);
    }
  }

  // ----- any sequence of calls

  datatype Call = Call(rrn: string, debit: string, credit: string, cents: int, now: int)

  function Run(t: Tables, calls: seq<Call>): Tables
    decreases |calls|
  {
    if calls == [] then t
    else
      var c := calls[0];
      Run(Record(t, c.rrn, c.debit, c.credit, c.cents, c.now).0, calls[1..])
  }

  lemma {:induction false} RunKeepsBooks(t: Tables, calls: seq<Call>)
    requires Valid(t)
    ensures Valid(Run(t, calls)) && Run(t, calls).accounts == t.accounts
    ensures forall rrn | rrn in t.transactions ::
              rrn in Run(t, calls).transactions && Run(t, calls).transactions[rrn] == t.transactions[rrn]
    decreases |calls|
  {
    hide Valid;
    if calls != [] {
      var c := calls[0];
      RecordKeepsBooks(t, c.rrn, c.debit, c.credit, c.cents, c.now);
      RunKeepsBooks(Record(t, c.rrn, c.debit, c.credit, c.cents, c.now).0, calls[1..]);
    }
  }

  /** Whatever is recorded, in whatever order: the ledger is balanced and all balances add up to zero. */
  lemma RunConservesMoney(accounts: set<string>, calls: seq<Call>)
    ensures var t := Run(Tables(accounts, map[], []), calls);
            Valid(t) && IsBalanced(t) && SumOfBalances(t.entries, accounts) == 0
  {
    var t0 := Tables(accounts, map[], []);
    RunKeepsBooks(t0, calls);
    var t := Run(t0, calls);
    BalancesAddUp(t.entries, accounts);
  }

  lemma {:induction false} BalancesAddUp(entries: seq<Entry>, accounts: set<string>)
    requires forall e | e in entries :: e.accountId in accounts
    ensures SumOfBalances(entries, accounts) == Total(entries, Credit) - Total(entries, Debit)
  {
    if entries == [] {
      NoBalances(entries, accounts);
    } else {
      var e, rest := entries[|entries| - 1], entries[..|entries| - 1];
      BalancesAddUp(rest, accounts);
      OneMoreEntry(rest, e, accounts);
      assert entries == rest + [e];
    }
  }

  lemma {:induction false} NoBalances(entries: seq<Entry>, accounts: set<string>)
    requires entries == []
    ensures SumOfBalances(entries, accounts) == 0
    decreases accounts
  {
    if accounts != {} {
      var a :|
        a in accounts && SumOfBalances(entries, accounts) == Balance(entries, a) + SumOfBalances(entries, accounts - {a});
      assert Balance(entries, a) == 0;
      NoBalances(entries, accounts - {a});
      assert SumOfBalances(entries, accounts - {a}) == 0;
    }
  }

  lemma BalanceOfMore(entries: seq<Entry>, e: Entry, a: string)
    ensures Balance(entries + [e], a) == Balance(entries, a) + if e.accountId == a then Signed(e) else 0
  {
    assert (entries + [e])[..|entries|] == entries;
  }

  lemma {:induction false} OneMoreEntry(entries: seq<Entry>, e: Entry, accounts: set<string>)
    ensures SumOfBalances(entries + [e], accounts) ==
            SumOfBalances(entries, accounts) + if e.accountId in accounts then Signed(e) else 0
    decreases accounts
  {
    var all := entries + [e];
    if accounts != {} {
      var a :| a in accounts && SumOfBalances(all, accounts) == Balance(all, a) + SumOfBalances(all, accounts - {a});
      OneMoreEntry(entries, e, accounts - {a});
      BalanceOfMore(entries, e, a);
      TakeOut(entries, accounts, a);
    }
  }

  /** Which account is counted first does not matter. */
  lemma {:induction false} TakeOut(entries: seq<Entry>, accounts: set<string>, a: string)
    requires a in accounts
    ensures SumOfBalances(entries, accounts) == Balance(entries, a) + SumOfBalances(entries, accounts - {a})
    decreases accounts
  {
    var b :|
      b in accounts && SumOfBalances(entries, accounts) == Balance(entries, b) + SumOfBalances(entries, accounts - {b});
    if b != a {
      TakeOut(entries, accounts - {b}, a);
      TakeOut(entries, accounts - {a}, b);
      assert accounts - {b} - {a} == accounts - {a} - {b};
    }
  }

  // ----- the connection

  /** A connection to the ledger database, whose transactions commit or roll back as a whole. */
  class Connection {
    var tables: Tables

    constructor (accounts: set<string>)
      ensures tables == Tables(accounts, map[], []) && Valid(tables)
    {
      tables := Tables(accounts, map[], []);
    }

    /** INSERT INTO transactions; false is the UNIQUE violation of the primary key. */
    method InsertTransaction(rrn: string, cents: int, now: int) returns (ok: bool)
      modifies this
      ensures ok <==> rrn !in old(tables.transactions)
      ensures tables == if ok then old(tables).(transactions := old(tables.transactions)[rrn := Transaction(cents, now)])
                        else old(tables)
    {
      ok := rrn !in tables.transactions;
      if ok {
        tables := tables.(transactions := tables.transactions[rrn := Transaction(cents, now)]);
      }
    }

    /** INSERT INTO ledger_entries; false is a foreign-key violation. */
    method InsertEntry(e: Entry) returns (ok: bool)
      modifies this
      ensures ok <==> e.rrn in old(tables.transactions) && e.accountId in old(tables.accounts)
      ensures tables == if ok then old(tables).(entries := old(tables.entries) + [e]) else old(tables)
    {
      ok := e.rrn in tables.transactions && e.accountId in tables.accounts;
      if ok {
        tables := tables.(entries := tables.entries + [e]);
      }
    }

    /** record_purchase: three inserts in one transaction, rolled back together. */
    method RecordPurchase(rrn: string, debitAccount: string, creditAccount: string, amountCents: int, now: int)
      returns (outcome: Outcome)
      requires Valid(tables)
      modifies this
      ensures (tables, outcome) == Record(old(tables), rrn, debitAccount, creditAccount, amountCents, now)
      ensures Valid(tables)
      ensures outcome.AlreadyRecorded? <==> rrn in old(tables.transactions)
      ensures outcome.Recorded? <==>
              && rrn !in old(tables.transactions)
              && debitAccount in old(tables.accounts) && creditAccount in old(tables.accounts)
      ensures outcome.Recorded? ==>
                && tables.transactions == old(tables.transactions)[rrn := Transaction(amountCents, now)]
                && tables.entries == old(tables.entries) +
                                     [Entry(rrn, debitAccount, Debit, amountCents),
                                      Entry(rrn, creditAccount, Credit, amountCents)]
      ensures !outcome.Recorded? ==> tables == old(tables)
    {
      RecordKeepsBooks(tables, rrn, debitAccount, creditAccount, amountCents, now);
      var savepoint := tables;
      var ok := InsertTransaction(rrn, amountCents, now);
      if !ok {
        tables := savepoint;
        return AlreadyRecorded;
      }
      ok := InsertEntry(Entry(rrn, debitAccount, Debit, amountCents));
      if ok {
        ok := InsertEntry(Entry(rrn, creditAccount, Credit, amountCents));
      }
      if !ok {
        tables := savepoint;
        return ForeignKeyError;
      }
      assert savepoint.entries + [Entry(rrn, debitAccount, Debit, amountCents)] +
             [Entry(rrn, creditAccount, Credit, amountCents)] ==
             savepoint.entries + Posting(rrn, debitAccount, creditAccount, amountCents);
      return Recorded;
    }
  }
}
