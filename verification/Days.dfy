/** UTC days: the run the worker files for a date, over the transactions and the rows of that day. */
module Days {
  import opened Common
  import opened Ledger
  import opened Books
  import opened Operations
  import opened Ordering
  import opened Paging
  import opened Reconciliation
  import opened StripePeer
  import opened EndToEnd

  /** Midnight UTC, where a date is the number of days since the epoch. */
  function StartOf(date: int): Time {
    date * 86400
  }

  /** A moment lies in the window of a date exactly if it lies on that day. */
  lemma OnThatDay(t: Time, date: int)
    ensures StartOf(date) <= t < StartOf(date + 1) <==> t / 86400 == date
  {
  }

  // --------------------------------------------------- the two sides of a day

  /** The intent of a charge or refund made on a day. */
  function MovedOn(date: int): BT -> Option<string> {
    (bt: BT) => if bt.created / 86400 == date && bt.kind in {"charge", "refund"} then BtIntent(bt) else None
  }

  /** The Stripe id of a row that has succeeded and was last updated on a day. */
  function TouchedOn(db: Db, date: int): nat -> Option<string> {
    (i: nat) => if i < |db.books.intents| && i < |db.stamps| && db.books.intents[i].status == Succeeded
            && db.stamps[i].updated / 86400 == date then db.books.intents[i].stripeId else None
  }

  function NetAt(db: Db): nat -> int {
    (i: nat) => if i < |db.books.intents| then db.books.intents[i].received - db.books.intents[i].refunded else 0
  }

  /** A report compares, for a day, what moved at Stripe with what the rows touched that day say: its totals
      are the sums of each side, and it names an intent exactly if the two sides differ on it. */
  ghost predicate ComparesDay(r: ReconciliationRun, all: seq<BT>, db: Db, date: int) {
    var moved, touched := GroupMap(all, MovedOn(date), BtAmount),
      GroupMap(Indices(|db.books.intents|), TouchedOn(db, date), NetAt(db));
    && r.totalStripe == Sum(all, Keyed(MovedOn(date), BtAmount))
    && r.totalInternal == Sum(Indices(|db.books.intents|), Keyed(TouchedOn(db, date), NetAt(db)))
    && (forall id :: Reports(r, id) <==> !SameAt(moved, touched, id))
    && (forall m :: m in r.mismatches ==> Truthful(moved, touched, m))
  }

  lemma MovedInWindow(all: seq<BT>, date: int)
    ensures GroupMap(all, MovementIn(Day(StartOf(date), StartOf(date + 1))), BtAmount) ==
            GroupMap(all, MovedOn(date), BtAmount)
  {
    var window := Day(StartOf(date), StartOf(date + 1));
    forall k | 0 <= k < |all| ensures MovementIn(window)(all[k]) == MovedOn(date)(all[k]) {
      OnThatDay(all[k].created, date);
    }
    SameGroups(all, MovementIn(window), MovedOn(date));
  }

  lemma SameGroups(all: seq<BT>, key: BT -> Option<string>, key': BT -> Option<string>)
    requires forall k :: 0 <= k < |all| ==> key(all[k]) == key'(all[k])
    ensures GroupMap(all, key, BtAmount) == GroupMap(all, key', BtAmount)
  {
    assert KeySet(all, key) == KeySet(all, key');
    forall id | id in KeySet(all, key)
      ensures Sum(all, Restrict(key, BtAmount, id)) == Sum(all, Restrict(key', BtAmount, id)) {
      SumSame(all, Restrict(key, BtAmount, id), Restrict(key', BtAmount, id));
    }
  }

  /** With Stripe ids unique, grouping the touched rows by id gives each row's own net amount. */
  lemma GroupOfRow(db: Db, date: int, i: nat, id: string)
    requires UniqueIntents(db.books) && i < |db.books.intents| && TouchedOn(db, date)(i) == Some(id)
    ensures var touched := GroupMap(Indices(|db.books.intents|), TouchedOn(db, date), NetAt(db));
            id in touched && touched[id] == NetAt(db)(i)
  {
    var ids := Indices(|db.books.intents|);
    assert TouchedOn(db, date)(ids[i]).value == id;
    SumSame(ids, Restrict(TouchedOn(db, date), NetAt(db), id), PointMass(i, NetAt(db)(i)));
    SumPointMass(ids, i, NetAt(db)(i));
    assert ids[i] in ids;
  }

  lemma TouchedInWindow(db: Db, date: int)
    requires UniqueIntents(db.books)
    ensures InternalByIntent(db, StartOf(date), StartOf(date + 1)) ==
            GroupMap(Indices(|db.books.intents|), TouchedOn(db, date), NetAt(db))
  {
    var window := Day(StartOf(date), StartOf(date + 1));
    var internal := InternalByIntent(db, StartOf(date), StartOf(date + 1));
    var ids := Indices(|db.books.intents|);
    var touched := GroupMap(ids, TouchedOn(db, date), NetAt(db));
    InternalSideOfWindow(db, window);
    forall i: nat, id | i < |db.books.intents| ensures TouchedAt(db, window, i, id) <==>
      TouchedOn(db, date)(i) == Some(id) {
      if i < |db.stamps| { OnThatDay(db.stamps[i].updated, date); }
    }
    forall id | id in internal ensures id in touched && touched[id] == internal[id] {
      var i: nat :| TouchedAt(db, window, i, id);
      GroupOfRow(db, date, i, id);
    }
    forall id | id in touched ensures id in internal {
      var k :| 0 <= k < |ids| && TouchedOn(db, date)(ids[k]).Some? && TouchedOn(db, date)(ids[k]).value == id;
      assert TouchedAt(db, window, k, id);
    }
  }

  function TouchedNet(db: Db, date: int): map<string, int> {
    GroupMap(Indices(|db.books.intents|), TouchedOn(db, date), NetAt(db))
  }

  lemma DayIsItsReport(all: seq<BT>, db: Db, date: int)
    requires UniqueIntents(db.books)
    ensures WindowReport(all, db, StartOf(date), StartOf(date + 1)) ==
            Report(GroupMap(all, MovedOn(date), BtAmount), TouchedNet(db, date))
  {
    StripeSideOfWindow(all, Day(StartOf(date), StartOf(date + 1)));
    MovedInWindow(all, date);
    TouchedInWindow(db, date);
  }

  lemma TotalsOfDay(all: seq<BT>, db: Db, date: int)
    ensures var r := Report(GroupMap(all, MovedOn(date), BtAmount), TouchedNet(db, date));
            && r.totalStripe == Sum(all, Keyed(MovedOn(date), BtAmount))
            && r.totalInternal == Sum(Indices(|db.books.intents|), Keyed(TouchedOn(db, date), NetAt(db)))
  {
    SumOfGroups(all, MovedOn(date), BtAmount);
    SumOfGroups(Indices(|db.books.intents|), TouchedOn(db, date), NetAt(db));
  }

  lemma NamesOfReport(moved: map<string, int>, touched: map<string, int>)
    ensures forall id :: Reports(Report(moved, touched), id) <==> !SameAt(moved, touched, id)
    ensures forall m :: m in Report(moved, touched).mismatches ==> Truthful(moved, touched, m)
  {
    ReportIsExact(moved, touched);
    forall id ensures Reports(Report(moved, touched), id) <==> !SameAt(moved, touched, id) {
      ReportNames(moved, touched, id);
    }
  }

  /** The report of a date compares that day. */
  lemma ReportOfDay(all: seq<BT>, db: Db, date: int)
    requires UniqueIntents(db.books)
    ensures ComparesDay(WindowReport(all, db, StartOf(date), StartOf(date + 1)), all, db, date)
  {
    DayIsItsReport(all, db, date);
    TotalsOfDay(all, db, date);
    NamesOfReport(GroupMap(all, MovedOn(date), BtAmount), TouchedNet(db, date));
  }

  // -------------------------------------------------------------- the worker

  /** A row of `reconciliation_runs`. */
  datatype RunRow = RunRow(date: int, report: ReconciliationRun, count: nat)

  /** `reconcile_day`: compares the UTC day and adds a row for it to those of earlier runs. */
  method ReconcileDay(all: seq<BT>, pageSize: nat -> nat, db: Db, date: int, earlier: seq<RunRow>)
    returns (runs: seq<RunRow>)
    requires UniqueIds(all) && forall p :: pageSize(p) >= 1
    ensures |runs| == |earlier| + 1 && runs[..|earlier|] == earlier
    ensures var row := runs[|earlier|];
            && row.date == date && row.count == |row.report.mismatches|
            && row.report == WindowReport(all, db, StartOf(date), StartOf(date + 1))
            && (UniqueIntents(db.books) ==> ComparesDay(row.report, all, db, date))
  {
    var run := ReconcileWindow(all, pageSize, db, StartOf(date), StartOf(date + 1));
    runs := earlier + [RunRow(date, run, |run.mismatches|)];
    if UniqueIntents(db.books) {
      ReportOfDay(all, db, date);
    }
  }
}
