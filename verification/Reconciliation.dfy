/** The reconciliation worker: our books against Stripe's for a day, and against themselves. */
module Reconciliation {
  import opened Common
  import opened Ledger
  import opened Books
  import opened Operations
  import opened Ordering
  import opened Paging
  import opened Runs

  // ------------------------------------------------------------ Stripe's side

  /** `_bt_payment_intent_id`. */
  function BtIntent(bt: BT): Option<string> {
    if bt.source.Expanded? then
      match bt.source.intent
      case IntentId(id) => Some(id)
      case IntentObject(id) => id
      case NoIntent => None
    else None
  }

  /** The intent of a transaction, by the shape of its source: an id in an expanded source, or the id of an
      object there; a source that is absent or not expanded names none. */
  lemma IntentBySource(id: string, created: Time, kind: string, amount: int, source: string, intent: string)
    ensures BtIntent(BalanceTransaction(id, created, kind, amount, NoSource)) == None
    ensures BtIntent(BalanceTransaction(id, created, kind, amount, Unexpanded(source))) == None
    ensures BtIntent(BalanceTransaction(id, created, kind, amount, Expanded(NoIntent))) == None
    ensures BtIntent(BalanceTransaction(id, created, kind, amount, Expanded(IntentId(intent)))) == Some(intent)
    ensures BtIntent(BalanceTransaction(id, created, kind, amount, Expanded(IntentObject(Some(intent))))) ==
            Some(intent)
    ensures BtIntent(BalanceTransaction(id, created, kind, amount, Expanded(IntentObject(None)))) == None
  {
  }

  function BtAmount(bt: BT): int {
    bt.amount
  }

  /** Stripe's net amount per intent: charges count up, refunds count down. */
  function StripeByIntent(bts: seq<BT>): map<string, int> {
    GroupMap(bts, BtIntent, BtAmount)
  }

  // ---------------------------------------------------------------- our side

  predicate UpdatedIn(db: Db, i: nat, start: Time, end: Time) {
    i < |db.books.intents| && i < |db.stamps|
    && db.books.intents[i].stripeId.Some? && start <= db.stamps[i].updated < end
  }

  /** The dictionary of the rows the query returns, keyed by Stripe id. */
  function InternalIntents(db: Db, start: Time, end: Time, n: nat): map<string, Intent>
    requires n <= |db.books.intents|
  {
    if n == 0 then map[]
    else
      var rest := InternalIntents(db, start, end, n - 1);
      var x := db.books.intents[n - 1];
      if UpdatedIn(db, n - 1, start, end) then rest[x.stripeId.value := x] else rest
  }

  function InternalByIntent(db: Db, start: Time, end: Time): map<string, int> {
    var rows := InternalIntents(db, start, end, |db.books.intents|);
    map id | id in rows && rows[id].status == Succeeded :: rows[id].received - rows[id].refunded
  }

  // ------------------------------------------------------------ classification

  datatype Mismatch =
    | MissingStripe(id: string, internalAmount: int)
    | MissingInternal(id: string, stripeAmount: int)
    | AmountMismatch(id: string, stripeAmount: int, internalAmount: int, diff: int)

  /** The types of balance transaction the worker asks for. */
  const MOVEMENTS := ["charge", "refund"]

  datatype ReconciliationRun = ReconciliationRun(totalStripe: int, totalInternal: int, mismatches: seq<Mismatch>)

  function Classify(stripe: map<string, int>, internal: map<string, int>, id: string): seq<Mismatch>
    requires id in stripe || id in internal
  {
    if id !in stripe then [MissingStripe(id, internal[id])]
    else if id !in internal then [MissingInternal(id, stripe[id])]
    else if stripe[id] != internal[id] then [AmountMismatch(id, stripe[id], internal[id], stripe[id] - internal[id])]
    else []
  }

  function ClassifyAll(stripe: map<string, int>, internal: map<string, int>, ids: seq<string>): seq<Mismatch>
    requires forall id :: id in ids ==> id in stripe || id in internal
  {
    if ids == [] then []
    else
      var n := |ids| - 1;
      ClassifyAll(stripe, internal, ids[..n]) + Classify(stripe, internal, ids[n])
  }

  function Report(stripe: map<string, int>, internal: map<string, int>): ReconciliationRun {
    ReconciliationRun(SumValues(stripe), SumValues(internal),
                      ClassifyAll(stripe, internal, Sorted(stripe.Keys + internal.Keys)))
  }

  /** The first loop of `reconcile_day`: net the balance transactions per intent. */
  method NetByIntent(bts: seq<BT>) returns (stripe: map<string, int>)
    ensures stripe == StripeByIntent(bts)
  {
    stripe := map[];
    for n := 0 to |bts|
      invariant stripe == GroupFold(bts[..n], BtIntent, BtAmount)
    {
      var id := BtIntent(bts[n]);
      if id.Some? {
        stripe := stripe[id.value := (if id.value in stripe then stripe[id.value] else 0) + bts[n].amount];
      }
      assert bts[..n + 1][..n] == bts[..n];
    }
    assert bts[..|bts|] == bts;
    GroupFoldIsGroupMap(bts, BtIntent, BtAmount);
  }

  /** The second loop: compare the two sides, intent by intent. */
  method Compare(stripe: map<string, int>, internal: map<string, int>, ids: seq<string>)
    returns (mismatches: seq<Mismatch>)
    requires forall id :: id in ids ==> id in stripe || id in internal
    ensures mismatches == ClassifyAll(stripe, internal, ids)
  {
    mismatches := [];
    for n := 0 to |ids|
      invariant mismatches == ClassifyAll(stripe, internal, ids[..n])
    {
      var id := ids[n];
      assert id in ids;
      assert ids[..n + 1] == ids[..n] + [id];
      if id !in stripe {
        mismatches := mismatches + [MissingStripe(id, internal[id])];
      } else if id !in internal {
        mismatches := mismatches + [MissingInternal(id, stripe[id])];
      } else if stripe[id] != internal[id] {
        mismatches := mismatches + [AmountMismatch(id, stripe[id], internal[id], stripe[id] - internal[id])];
      }
    }
    assert ids[..|ids|] == ids;
  }

  /** The report of Stripe's pages for the window [start, end) against the rows updated in it. */
  function WindowReport(all: seq<BT>, db: Db, start: Time, end: Time): ReconciliationRun {
    Report(StripeByIntent(Listing(all, start, end, MOVEMENTS)), InternalByIntent(db, start, end))
  }

  /** What `reconcile_day` computes for a window. */
  method ReconcileWindow(all: seq<BT>, pageSize: nat -> nat, db: Db, start: Time, end: Time)
    returns (run: ReconciliationRun)
    requires UniqueIds(all) && forall p :: pageSize(p) >= 1
    ensures run == WindowReport(all, db, start, end)
  {
    var bts := ListBalanceTransactions(all, pageSize, start, end, MOVEMENTS);
    var stripe := NetByIntent(bts);
    var totalStripe := SumValues(stripe);
    var internal := InternalByIntent(db, start, end);
    var totalInternal := SumValues(internal);
    var mismatches := Compare(stripe, internal, Sorted(stripe.Keys + internal.Keys));
    run := ReconciliationRun(totalStripe, totalInternal, mismatches);
  }

  // --------------------------------------------------------- what it reports

  /** What a mismatch says the two sides are apart. */
  function Gap(m: Mismatch): int {
    match m
    case MissingInternal(_, s) => s
    case MissingStripe(_, i) => -i
    case AmountMismatch(_, _, _, diff) => diff
  }

  function GapAt(stripe: map<string, int>, internal: map<string, int>): string -> int {
    id => ValueAt(stripe)(id) - ValueAt(internal)(id)
  }

  lemma GapOfOne(stripe: map<string, int>, internal: map<string, int>, id: string)
    requires id in stripe || id in internal
    ensures Sum(Classify(stripe, internal, id), Gap) == GapAt(stripe, internal)(id)
  {
    var ms := Classify(stripe, internal, id);
    if ms != [] {
      SumSnoc([], ms[0], Gap);
      assert [] + [ms[0]] == ms;
      assert Sum(ms, Gap) == Gap(ms[0]);
    }
    assert GapAt(stripe, internal)(id) == ValueAt(stripe)(id) - ValueAt(internal)(id);
  }

  lemma {:induction false} GapsAddUp(stripe: map<string, int>, internal: map<string, int>, ids: seq<string>)
    requires forall id :: id in ids ==> id in stripe || id in internal
    ensures Sum(ClassifyAll(stripe, internal, ids), Gap) == Sum(ids, GapAt(stripe, internal))
  {
    if ids != [] {
      var n := |ids| - 1;
      GapsAddUp(stripe, internal, ids[..n]);
      SumAppend(ClassifyAll(stripe, internal, ids[..n]), Classify(stripe, internal, ids[n]), Gap);
      GapOfOne(stripe, internal, ids[n]);
    }
  }

  /** Conservation: the two totals differ by exactly what the mismatches add up to. */
  lemma ReportConserves(stripe: map<string, int>, internal: map<string, int>)
    ensures var r := Report(stripe, internal);
            r.totalStripe - r.totalInternal == Sum(r.mismatches, Gap)
  {
    var ids := Sorted(stripe.Keys + internal.Keys);
    GapsAddUp(stripe, internal, ids);
    SumValuesOver(stripe, ids);
    SumValuesOver(internal, ids);
    SumLinear(ids, GapAt(stripe, internal), ValueAt(internal), ValueAt(stripe));
  }

  /** The day's total is the sum over every balance transaction that names an intent. */
  lemma StripeTotalCountsEverything(bts: seq<BT>, internal: map<string, int>)
    ensures Report(StripeByIntent(bts), internal).totalStripe == Sum(bts, Keyed(BtIntent, BtAmount))
  {
    SumOfGroups(bts, BtIntent, BtAmount);
  }

  ghost predicate SameAt(stripe: map<string, int>, internal: map<string, int>, id: string) {
    (id in stripe <==> id in internal) && (id in stripe && id in internal ==> stripe[id] == internal[id])
  }

  /** A mismatch is truthful: it says which side lacks the intent, or by how much they differ. */
  ghost predicate Truthful(stripe: map<string, int>, internal: map<string, int>, m: Mismatch) {
    match m
    case MissingStripe(id, i) => id !in stripe && id in internal && i == internal[id]
    case MissingInternal(id, s) => id in stripe && id !in internal && s == stripe[id]
    case AmountMismatch(id, s, i, diff) =>
      id in stripe && id in internal && s == stripe[id] && i == internal[id] && diff == s - i && diff != 0
  }

  /** What is right about a list of mismatches for some ids. */
  ghost predicate Exact(stripe: map<string, int>, internal: map<string, int>, ids: seq<string>, ms: seq<Mismatch>) {
    && (forall m :: m in ms ==> Truthful(stripe, internal, m) && m.id in ids)
    && (forall id :: id in ids && !SameAt(stripe, internal, id) ==> exists m :: m in ms && m.id == id)
    && (forall i, j :: 0 <= i < j < |ms| ==> Less(ms[i].id, ms[j].id))
  }

  lemma OneMoreId(stripe: map<string, int>, internal: map<string, int>, ids: seq<string>, id: string, ms: seq<Mismatch>)
    requires Exact(stripe, internal, ids, ms) && (id in stripe || id in internal)
    requires forall x :: x in ids ==> Less(x, id)
    ensures Exact(stripe, internal, ids + [id], ms + Classify(stripe, internal, id))
  {
    var last := Classify(stripe, internal, id);
    var all := ms + last;
    assert forall m :: m in ms ==> m in all;
    if last != [] {
      assert last == [last[0]] && last[0].id == id && all[|ms|] == last[0];
      assert Truthful(stripe, internal, last[0]);
    } else {
      assert all == ms && SameAt(stripe, internal, id);
    }
    forall i | 0 <= i < |ms| ensures Less(ms[i].id, id) {
      assert ms[i] in ms;
    }
  }

  lemma {:induction false} ClassifiedExactly(stripe: map<string, int>, internal: map<string, int>, ids: seq<string>)
    requires Ascending(ids) && forall id :: id in ids ==> id in stripe || id in internal
    ensures Exact(stripe, internal, ids, ClassifyAll(stripe, internal, ids))
  {
    if ids != [] {
      var n := |ids| - 1;
      ClassifiedExactly(stripe, internal, ids[..n]);
      assert ids == ids[..n] + [ids[n]];
      OneMoreId(stripe, internal, ids[..n], ids[n], ClassifyAll(stripe, internal, ids[..n]));
    }
  }

  /** The report is exact: every mismatch is truthful, every intent on which the two sides differ
      has one, and the ids are strictly ascending, so none is repeated. */
  lemma ReportIsExact(stripe: map<string, int>, internal: map<string, int>)
    ensures var ms := Report(stripe, internal).mismatches;
            && (forall m :: m in ms ==> Truthful(stripe, internal, m))
            && (forall id :: !SameAt(stripe, internal, id) ==> exists m :: m in ms && m.id == id)
            && (forall i, j :: 0 <= i < j < |ms| ==> Less(ms[i].id, ms[j].id))
  {
    ClassifiedExactly(stripe, internal, Sorted(stripe.Keys + internal.Keys));
  }

  ghost predicate Reports(r: ReconciliationRun, id: string) {
    exists m :: m in r.mismatches && m.id == id
  }

  /** The report names an intent exactly when the two sides differ on it. */
  lemma ReportNames(stripe: map<string, int>, internal: map<string, int>, id: string)
    ensures Reports(Report(stripe, internal), id) <==> !SameAt(stripe, internal, id)
  {
    ReportIsExact(stripe, internal);
  }

  /** The report is empty exactly when the two net maps are equal; then the totals are equal too. */
  lemma CleanReport(stripe: map<string, int>, internal: map<string, int>)
    ensures var r := Report(stripe, internal);
            && (r.mismatches == [] <==> stripe == internal)
            && (r.mismatches == [] ==> r.totalStripe == r.totalInternal)
  {
    ReportIsExact(stripe, internal);
    ReportConserves(stripe, internal);
    var ms := Report(stripe, internal).mismatches;
    if ms == [] {
      forall id ensures SameAt(stripe, internal, id) {
      }
      SameEverywhere(stripe, internal);
    } else {
      assert ms[0] in ms && Truthful(stripe, internal, ms[0]);
      assert !SameAt(stripe, internal, ms[0].id);
    }
  }

  lemma SameEverywhere(stripe: map<string, int>, internal: map<string, int>)
    requires forall id :: SameAt(stripe, internal, id)
    ensures stripe == internal
  {
    forall id ensures id in stripe <==> id in internal {
      assert SameAt(stripe, internal, id);
    }
    forall id | id in stripe ensures stripe[id] == internal[id] {
      assert SameAt(stripe, internal, id);
    }
  }

  /** The report does not depend on the order in which Stripe lists the transactions. */
  lemma ReportIgnoresOrder(bts: seq<BT>, bts': seq<BT>, internal: map<string, int>)
    requires multiset(bts) == multiset(bts')
    ensures Report(StripeByIntent(bts), internal) == Report(StripeByIntent(bts'), internal)
  {
    KeysIgnoreOrder(bts, bts');
    KeysIgnoreOrder(bts', bts);
    forall id | id in KeySet(bts, BtIntent)
      ensures Sum(bts, Restrict(BtIntent, BtAmount, id)) == Sum(bts', Restrict(BtIntent, BtAmount, id)) {
      SumPermuted(bts, bts', Restrict(BtIntent, BtAmount, id));
    }
    assert StripeByIntent(bts) == StripeByIntent(bts');
  }

  lemma KeysIgnoreOrder(bts: seq<BT>, bts': seq<BT>)
    requires multiset(bts) == multiset(bts')
    ensures KeySet(bts, BtIntent) <= KeySet(bts', BtIntent)
  {
    forall id | id in KeySet(bts, BtIntent) ensures id in KeySet(bts', BtIntent) {
      var i :| 0 <= i < |bts| && BtIntent(bts[i]).Some? && BtIntent(bts[i]).value == id;
      assert bts[i] in multiset(bts');
      var j :| 0 <= j < |bts'| && bts'[j] == bts[i];
      assert BtIntent(bts'[j]).value == id;
    }
  }

  // --------------------------------------------------------------- self-check

  datatype Drift = Drift(intent: nat, expected: int, actual: int)

  function OfIntent(i: nat): Entry -> bool {
    (e: Entry) => e.intent == Some(i)
  }

  /** `list_entries_for_intent`. */
  function EntriesForIntent(ledger: seq<Entry>, i: nat): seq<Entry> {
    Filter(ledger, OfIntent(i))
  }

  function CapturedAmount(e: Entry): int {
    if e.account == CAPTURED then Signed(e) else 0
  }

  function Expected(x: Intent): int {
    if x.status == Succeeded then x.received - x.refunded else 0
  }

  predicate Recent(db: Db, i: nat, cutoff: Time) {
    i < |db.books.intents| && i < |db.stamps| && db.stamps[i].created >= cutoff
  }

  /** The ledger holds something else on payments_captured than a row says it received and has not
      refunded, or anything at all for a row that has not succeeded. */
  ghost predicate Differs(b: Books, i: nat)
    requires i < |b.intents|
  {
    var x := b.intents[i];
    PositionOf(b, i, "payments_captured") != (if x.status == Succeeded then x.received - x.refunded else 0)
  }

  /** An intent created in the window before `now` whose row and ledger differ. */
  ghost predicate Drifts(db: Db, now: Time, window: Time, i: nat) {
    && i < |db.books.intents| && i < |db.stamps| && now - db.stamps[i].created <= window
    && Differs(db.books, i)
  }

  /** A drift entry with the figures of an intent that drifts. */
  ghost predicate DriftOf(db: Db, now: Time, window: Time, d: Drift) {
    && Drifts(db, now, window, d.intent)
    && var x := db.books.intents[d.intent];
       && d.expected == (if x.status == Succeeded then x.received - x.refunded else 0)
       && d.actual == PositionOf(db.books, d.intent, "payments_captured")
  }

  ghost predicate Listed(drift: seq<Drift>, i: nat) {
    exists k :: 0 <= k < |drift| && drift[k].intent == i
  }

  /** The intents, up to a row, created in the window before `now`. */
  ghost function RecentBelow(db: Db, now: Time, window: Time, n: nat): set<nat> {
    set i: nat | i < n && i < |db.books.intents| && i < |db.stamps| && now - db.stamps[i].created <= window
  }

  /** `reconcile_recent`: on any books at all, the drift lists exactly the recent intents whose
      ledger position is not what the row says, in order, each once, with both figures. */
  method ReconcileRecent(db: Db, now: Time, window: Time) returns (checked: nat, drift: seq<Drift>)
    ensures checked == |RecentBelow(db, now, window, |db.books.intents|)|
    ensures forall k :: 0 <= k < |drift| ==> DriftOf(db, now, window, drift[k])
    ensures forall i: nat :: Drifts(db, now, window, i) ==> Listed(drift, i)
    ensures forall k, l :: 0 <= k < l < |drift| ==> drift[k].intent < drift[l].intent
  {
    var cutoff := now - window;
    checked, drift := 0, [];
    for i := 0 to |db.books.intents|
      invariant checked == |RecentBelow(db, now, window, i)|
      invariant forall k :: 0 <= k < |drift| ==> DriftOf(db, now, window, drift[k]) && drift[k].intent < i
      invariant forall j: nat :: j < i && Drifts(db, now, window, j) ==> Listed(drift, j)
      invariant forall k, l :: 0 <= k < l < |drift| ==> drift[k].intent < drift[l].intent
    {
      RecentBelowNext(db, now, window, i);
      if Recent(db, i, cutoff) {
        checked := checked + 1;
        var entries := EntriesForIntent(db.books.ledger, i);
        var expected := Expected(db.books.intents[i]);
        var captured := Sum(entries, CapturedAmount);
        CapturedIsActual(db.books, i);
        if captured != expected {
          ListedGrows(drift, Drift(i, expected, captured));
          drift := drift + [Drift(i, expected, captured)];
        }
      }
    }
  }

  lemma RecentBelowNext(db: Db, now: Time, window: Time, i: nat)
    requires i < |db.books.intents|
    ensures |RecentBelow(db, now, window, i + 1)| ==
            |RecentBelow(db, now, window, i)| + (if Recent(db, i, now - window) then 1 else 0)
  {
    assert RecentBelow(db, now, window, i + 1) ==
           RecentBelow(db, now, window, i) + (if Recent(db, i, now - window) then {i} else {});
  }

  lemma ListedGrows(drift: seq<Drift>, d: Drift)
    ensures Listed(drift + [d], d.intent)
    ensures forall j: nat :: Listed(drift, j) ==> Listed(drift + [d], j)
  {
    var more := drift + [d];
    assert more[|drift|].intent == d.intent;
    forall j: nat | Listed(drift, j) ensures Listed(more, j) {
      var k :| 0 <= k < |drift| && drift[k].intent == j;
      assert more[k].intent == j;
    }
  }

  lemma CapturedIsActual(b: Books, i: nat)
    ensures Sum(EntriesForIntent(b.ledger, i), CapturedAmount) == PositionOf(b, i, "payments_captured")
  {
    FilterSum(b.ledger, OfIntent(i), CapturedAmount, Position(i, CAPTURED));
  }

  /** The self-check is silent on every reachable state: no intent has anything to report. */
  lemma SelfCheckIsSilent(actions: seq<Action>, i: nat)
    requires i < |Run(EMPTY_DB, actions).books.intents|
    ensures !Differs(Run(EMPTY_DB, actions).books, i)
  {
    ReachableInv(actions);
    assert IntentOk(Run(EMPTY_DB, actions).books, i);
  }
}
