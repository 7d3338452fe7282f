/** Reading the ledger: single balances, balances grouped by currency and account, the view of
    one merchant, and the dashboard's `net` sentinel. */
module Balances {
  import opened Common
  import opened Ledger
  import opened Books
  import opened Operations
  import opened Ordering
  import opened Runs

  // ------------------------------------------------------------ single sums

  function OnAccount(account: string, currency: string): Entry -> int {
    (e: Entry) => if e.account == account && e.currency == currency then Signed(e) else 0
  }

  function InCurrency(currency: string): Entry -> int {
    (e: Entry) => if e.currency == currency then Signed(e) else 0
  }

  /** `get_balance`: credits minus debits of an account in a currency, whatever its case. */
  function GetBalance(ledger: seq<Entry>, account: string, currency: string): int {
    Sum(ledger, OnAccount(account, Lower(currency)))
  }

  // ------------------------------------------------------------------ views

  /** The merchant an entry is joined to through its intent. */
  function OwnerOf(b: Books, e: Entry): Option<string> {
    if e.intent.Some? && e.intent.value < |b.intents| then b.intents[e.intent.value].merchant else None
  }

  function Owner(b: Books): Entry -> Option<string> {
    (e: Entry) => OwnerOf(b, e)
  }

  function OwnedBy(b: Books, merchant: Option<string>): Entry -> bool {
    (e: Entry) => OwnerOf(b, e) == merchant
  }

  /** The rows a balance query looks at: all of them, or those joined to one merchant. */
  function View(b: Books, merchant: Option<string>): seq<Entry> {
    if merchant.None? then b.ledger else Filter(b.ledger, OwnedBy(b, merchant))
  }

  // --------------------------------------------------- balances by currency

  type Grouped = map<string, map<string, int>>

  function PairOf(e: Entry): Option<(string, string)> {
    Some((e.currency, e.account))
  }

  /** What the grouped balances of a view should say about a currency and an account: nothing when
      no entry has them, otherwise the signed sum of the entries that do. */
  ghost function BalanceIn(view: seq<Entry>, currency: string, account: string): Option<int> {
    if exists e :: e in view && e.currency == currency && e.account == account
    then Some(Sum(view, OnAccount(account, currency))) else None
  }

  function Lookup(grouped: Grouped, currency: string, account: string): Option<int> {
    if currency in grouped && account in grouped[currency] then Some(grouped[currency][account]) else None
  }

  ghost predicate IsGrouped(view: seq<Entry>, grouped: Grouped) {
    && (forall cur, acct :: Lookup(grouped, cur, acct) == BalanceIn(view, cur, acct))
    && (forall cur :: cur in grouped ==> grouped[cur] != map[])
  }

  /** `grouped.setdefault(currency, {})[account] = balance`. */
  function SetBalance(grouped: Grouped, currency: string, account: string, balance: int): (r: Grouped)
    ensures forall cur, acct :: Lookup(r, cur, acct) ==
              if cur == currency && acct == account then Some(balance) else Lookup(grouped, cur, acct)
    ensures (forall cur :: cur in grouped ==> grouped[cur] != map[]) ==> forall cur :: cur in r ==> r[cur] != map[]
  {
    var accounts: map<string, int> := if currency in grouped then grouped[currency] else map[];
    var accounts' := accounts[account := balance];
    assert account in accounts';
    grouped[currency := accounts']
  }

  /** The rows of the GROUP BY query hold, for each pair that occurs, the balance of the pair. */
  lemma RowsHoldBalances(view: seq<Entry>, currency: string, account: string)
    ensures var rows := GroupMap(view, PairOf, Signed);
            BalanceIn(view, currency, account) ==
            if (currency, account) in rows then Some(rows[(currency, account)]) else None
  {
    var rows := GroupMap(view, PairOf, Signed);
    if exists e :: e in view && e.currency == currency && e.account == account {
      var e :| e in view && e.currency == currency && e.account == account;
      var i :| 0 <= i < |view| && view[i] == e;
      assert PairOf(view[i]).value == (currency, account);
      SumSame(view, OnAccount(account, currency), Restrict(PairOf, Signed, (currency, account)));
    }
  }

  /** What the rows that have been read say of a pair. */
  ghost function ReadSoFar(rows: map<(string, string), int>, todo: set<(string, string)>, currency: string,
                           account: string): Option<int> {
    var pair := (currency, account);
    if pair in rows && pair !in todo then Some(rows[pair]) else None
  }

  /** `get_balances_by_currency`: the rows of the query, in whatever order they come, are put into
      a dictionary of dictionaries. */
  method GetBalancesByCurrency(b: Books, merchant: Option<string>) returns (grouped: Grouped)
    ensures IsGrouped(View(b, merchant), grouped)
  {
    var rows := GroupMap(View(b, merchant), PairOf, Signed);
    var todo := rows.Keys;
    grouped := map[];
    while todo != {}
      invariant todo <= rows.Keys
      invariant forall cur, acct :: Lookup(grouped, cur, acct) == ReadSoFar(rows, todo, cur, acct)
      invariant forall cur :: cur in grouped ==> grouped[cur] != map[]
      decreases |todo|
    {
      var pair :| pair in todo;
      ghost var before, todo' := grouped, todo - {pair};
      grouped := SetBalance(grouped, pair.0, pair.1, rows[pair]);
      forall cur, acct ensures Lookup(grouped, cur, acct) == ReadSoFar(rows, todo', cur, acct) {
        assert Lookup(before, cur, acct) == ReadSoFar(rows, todo, cur, acct);
      }
      todo := todo - {pair};
    }
    forall cur, acct ensures Lookup(grouped, cur, acct) == BalanceIn(View(b, merchant), cur, acct) {
      RowsHoldBalances(View(b, merchant), cur, acct);
    }
  }

  /** Grouped balances refine direct sums: what the grouped view says of an account, with an absent
      key read as zero, is what `get_balance` computes for it. */
  lemma GroupedRefinesDirect(ledger: seq<Entry>, grouped: Grouped, account: string, currency: string)
    requires IsGrouped(ledger, grouped)
    ensures var cur := Lower(currency);
            GetBalance(ledger, account, currency) ==
            if Lookup(grouped, cur, account).Some? then Lookup(grouped, cur, account).value else 0
  {
    var cur := Lower(currency);
    assert Lookup(grouped, cur, account) == BalanceIn(ledger, cur, account);
    if Lookup(grouped, cur, account).None? {
      SumZero(ledger, OnAccount(account, cur));
    }
  }

  /** The views of all merchants and the entries without a merchant add up to the global balance. */
  lemma ViewsAddUp(b: Books, merchants: seq<string>, account: string, currency: string)
    requires Distinct(merchants)
    requires forall x :: x in b.intents && x.merchant.Some? ==> x.merchant.value in merchants
    ensures GetBalance(b.ledger, account, currency) ==
            Sum(merchants, MerchantBalance(b, account, currency))
            + GetBalance(Filter(b.ledger, OwnedBy(b, None)), account, currency)
  {
    var w := OnAccount(account, Lower(currency));
    GroupTotal(b.ledger, Owner(b), w, merchants);
    forall m | m in merchants ensures MerchantBalance(b, account, currency)(m) == GroupSum(b.ledger, Owner(b), w)(m) {
      FilterSum(b.ledger, OwnedBy(b, Some(m)), w, Restrict(Owner(b), w, m));
    }
    SumSame(merchants, MerchantBalance(b, account, currency), GroupSum(b.ledger, Owner(b), w));
    var unowned := (e: Entry) => if OwnerOf(b, e).None? then w(e) else 0;
    FilterSum(b.ledger, OwnedBy(b, None), w, unowned);
    SumLinear(b.ledger, Keyed(Owner(b), w), unowned, w);
  }

  function MerchantBalance(b: Books, account: string, currency: string): string -> int {
    m => GetBalance(View(b, Some(m)), account, currency)
  }

  // -------------------------------------------------------------- dashboard

  datatype CurrencyBalance = CurrencyBalance(currency: string, net: int, accounts: seq<(string, int)>)

  function ListAccounts(accounts: map<string, int>, ids: seq<string>): (r: seq<(string, int)>)
    requires forall a :: a in ids ==> a in accounts
    ensures |r| == |ids| && forall i :: 0 <= i < |ids| ==> r[i] == (ids[i], accounts[ids[i]])
  {
    seq(|ids|, i requires 0 <= i < |ids| => (ids[i], accounts[ids[i]]))
  }

  function Line(grouped: Grouped, currency: string): CurrencyBalance
    requires currency in grouped
  {
    var accounts := grouped[currency];
    CurrencyBalance(currency, SumValues(accounts), ListAccounts(accounts, Sorted(accounts.Keys)))
  }

  function Lines(grouped: Grouped, ids: seq<string>): (r: seq<CurrencyBalance>)
    requires forall cur :: cur in ids ==> cur in grouped
    ensures |r| == |ids| && forall i :: 0 <= i < |ids| ==> r[i] == Line(grouped, ids[i])
  {
    seq(|ids|, i requires 0 <= i < |ids| => Line(grouped, ids[i]))
  }

  /** The dashboard's balance response: currencies and accounts sorted, and per currency the sum
      of its account balances. */
  function BalanceResponse(grouped: Grouped): seq<CurrencyBalance> {
    Lines(grouped, Sorted(grouped.Keys))
  }

  function AccountIn(currency: string): Entry -> Option<string> {
    (e: Entry) => if e.currency == currency then Some(e.account) else None
  }

  /** A currency's accounts add up to everything booked in that currency. */
  lemma AccountsAddUp(view: seq<Entry>, grouped: Grouped, currency: string)
    requires IsGrouped(view, grouped) && currency in grouped
    ensures SumValues(grouped[currency]) == Sum(view, InCurrency(currency))
  {
    var accounts := grouped[currency];
    var groups := GroupMap(view, AccountIn(currency), Signed);
    forall a ensures a in accounts <==> a in groups
             ensures a in accounts ==> accounts[a] == Sum(view, Restrict(AccountIn(currency), Signed, a)) {
      assert Lookup(grouped, currency, a) == BalanceIn(view, currency, a);
      OneGroup(view, currency, a);
    }
    assert accounts == groups;
    SumOfGroups(view, AccountIn(currency), Signed);
    SumSame(view, Keyed(AccountIn(currency), Signed), InCurrency(currency));
  }

  lemma OneGroup(view: seq<Entry>, currency: string, account: string)
    ensures account in KeySet(view, AccountIn(currency)) <==> BalanceIn(view, currency, account).Some?
    ensures Sum(view, OnAccount(account, currency)) == Sum(view, Restrict(AccountIn(currency), Signed, account))
  {
    if BalanceIn(view, currency, account).Some? {
      var e :| e in view && e.currency == currency && e.account == account;
      var i :| 0 <= i < |view| && view[i] == e;
      assert AccountIn(currency)(view[i]).value == account;
    }
    if account in KeySet(view, AccountIn(currency)) {
      var i :| 0 <= i < |view| && AccountIn(currency)(view[i]).Some? && AccountIn(currency)(view[i]).value == account;
      assert view[i] in view;
    }
    SumSame(view, OnAccount(account, currency), Restrict(AccountIn(currency), Signed, account));
  }

  /** A merchant's rows in a currency are a scope of the ledger, so they net to zero. */
  lemma MerchantViewIsZeroSum(b: Books, merchant: Option<string>, currency: string)
    requires Recorded(b.ledger)
    ensures Sum(View(b, merchant), InCurrency(currency)) == 0
  {
    var scope: Scope := (txn: TxnId, cur: string, intent: Option<nat>) =>
      && cur == currency
      && (merchant.None? || (intent.Some? && intent.value < |b.intents|
                             && b.intents[intent.value].merchant == merchant));
    RecordedScope(b.ledger, scope);
    if merchant.None? {
      SumSame(b.ledger, InCurrency(currency), InScope(scope));
    } else {
      FilterSum(b.ledger, OwnedBy(b, merchant), InCurrency(currency), InScope(scope));
    }
  }

  /** A line lists exactly the accounts, each once, ascending, with its balance. */
  ghost predicate ListsAccounts(line: CurrencyBalance, accounts: map<string, int>) {
    && (forall k :: 0 <= k < |line.accounts| ==>
          line.accounts[k].0 in accounts && line.accounts[k].1 == accounts[line.accounts[k].0])
    && (forall k, l :: 0 <= k < l < |line.accounts| ==> Less(line.accounts[k].0, line.accounts[l].0))
    && (forall a :: a in accounts ==> exists k :: 0 <= k < |line.accounts| && line.accounts[k].0 == a)
  }

  lemma LineListsAccounts(grouped: Grouped, currency: string)
    requires currency in grouped
    ensures ListsAccounts(Line(grouped, currency), grouped[currency])
  {
    var accounts, ids := grouped[currency], Sorted(grouped[currency].Keys);
    var line := Line(grouped, currency);
    forall k | 0 <= k < |line.accounts| ensures line.accounts[k] == (ids[k], accounts[ids[k]]) && ids[k] in accounts {
      assert ids[k] in ids;
    }
    forall a | a in accounts ensures exists k :: 0 <= k < |line.accounts| && line.accounts[k].0 == a {
      var k :| 0 <= k < |ids| && ids[k] == a;
      assert line.accounts[k].0 == a;
    }
  }

  /** The response has one line per currency of the view, ascending, with its accounts complete. */
  lemma ResponseLines(grouped: Grouped)
    ensures var r := BalanceResponse(grouped);
            && (forall i :: 0 <= i < |r| ==>
                  && r[i].currency in grouped && r[i].net == SumValues(grouped[r[i].currency])
                  && ListsAccounts(r[i], grouped[r[i].currency]))
            && (forall i, j :: 0 <= i < j < |r| ==> Less(r[i].currency, r[j].currency))
            && (forall cur :: cur in grouped ==> exists i :: 0 <= i < |r| && r[i].currency == cur)
  {
    var r, ids := BalanceResponse(grouped), Sorted(grouped.Keys);
    forall i | 0 <= i < |r| ensures r[i].currency == ids[i] && ids[i] in grouped {
      assert r[i] == Line(grouped, ids[i]) && ids[i] in ids;
    }
    forall i | 0 <= i < |r| ensures ListsAccounts(r[i], grouped[r[i].currency]) {
      assert r[i] == Line(grouped, ids[i]);
      LineListsAccounts(grouped, ids[i]);
    }
    forall cur | cur in grouped ensures exists i :: 0 <= i < |r| && r[i].currency == cur {
      var i :| 0 <= i < |ids| && ids[i] == cur;
      assert r[i].currency == cur;
    }
  }

  /** The drift sentinel is silent: in every reachable state, for every merchant and globally, the
      dashboard lists each currency of the view once, in order, and every `net` is zero. */
  lemma DashboardNetIsZero(actions: seq<Action>, merchant: Option<string>, grouped: Grouped)
    requires IsGrouped(View(Run(EMPTY_DB, actions).books, merchant), grouped)
    ensures var r := BalanceResponse(grouped);
            && (forall i :: 0 <= i < |r| ==>
                  r[i].net == 0 && r[i].currency in grouped && ListsAccounts(r[i], grouped[r[i].currency]))
            && (forall i, j :: 0 <= i < j < |r| ==> Less(r[i].currency, r[j].currency))
            && (forall cur :: cur in grouped ==> exists i :: 0 <= i < |r| && r[i].currency == cur)
  {
    var b := Run(EMPTY_DB, actions).books;
    ReachableInv(actions);
    ResponseLines(grouped);
    forall cur | cur in grouped ensures SumValues(grouped[cur]) == 0 {
      AccountsAddUp(View(b, merchant), grouped, cur);
      MerchantViewIsZeroSum(b, merchant, cur);
    }
  }

  // ---------------------------------------------------------- independence

  /** The merchant of the intent a change books for, if it books anything. */
  function BooksFor(b: Books, c: Change): Option<string> {
    match c
    case RowAdded(x, _) => x.merchant
    case Reversal(i, _) => if i < |b.intents| then b.intents[i].merchant else None
    case Capture(i, _) => if i < |b.intents| then b.intents[i].merchant else None
    case Repayment(i, _, _) => if i < |b.intents| then b.intents[i].merchant else None
    case _ => None
  }

  /** Two more rows of an intent of somebody else do not show in a merchant's view. */
  lemma TransferLeavesView(b: Books, after: Books, m: string, i: nat, debit: string, credit: string, amount: int,
                           currency: string, kind: string)
    requires Linked(b) && i < |after.intents| && after.intents[i].merchant != Some(m)
    requires |b.intents| <= |after.intents|
    requires forall j :: 0 <= j < |b.intents| ==> after.intents[j].merchant == b.intents[j].merchant
    requires after.ledger == Transfer(b.ledger, i, debit, credit, amount, currency, kind)
    ensures View(after, Some(m)) == View(b, Some(m))
  {
    var p := OwnedBy(after, Some(m));
    FilterSame(b.ledger, p, OwnedBy(b, Some(m)));
    var d := Entry(Generated(|b.ledger|), debit, Debit, amount, Lower(currency), Some(i), kind);
    var c := Entry(Generated(|b.ledger|), credit, Credit, amount, Lower(currency), Some(i), kind);
    FilterSnoc(b.ledger, d, p);
    FilterSnoc(b.ledger + [d], c, p);
  }

  lemma ChangeLeavesView(b: Books, c: Change, m: string)
    requires Linked(b) && Sound(b, c) && BooksFor(b, c) != Some(m)
    ensures View(Apply(b, c), Some(m)) == View(b, Some(m))
  {
    var after := Apply(b, c);
    match c
    case RowAdded(x, currency) =>
      TransferLeavesView(b, after, m, |b.intents|, PendingAccount(x.customer), AUTHORISED, x.amount, currency,
                         CREATION);
    case Reversal(i, _) =>
      var x := b.intents[i];
      TransferLeavesView(b, after, m, i, AUTHORISED, PendingAccount(x.customer), x.amount, x.currency, CANCELLATION);
    case Capture(i, amount) =>
      TransferLeavesView(b, after, m, i, AUTHORISED, CAPTURED, amount, b.intents[i].currency, CAPTURE);
    case Repayment(i, amount, refundId) =>
      var x := b.intents[i];
      TransferLeavesView(b, after, m, i, CAPTURED, CustomerAccount(x.customer), amount, x.currency,
                         RefundKind(refundId));
    case _ =>
      FilterSame(b.ledger, OwnedBy(after, Some(m)), OwnedBy(b, Some(m)));
  }

  ghost predicate NoneBooksFor(b: Books, cs: seq<Change>, m: string)
    decreases cs
  {
    cs == [] || (BooksFor(b, cs[0]) != Some(m) && NoneBooksFor(Apply(b, cs[0]), cs[1..], m))
  }

  lemma {:induction false} ChangesLeaveView(b: Books, cs: seq<Change>, m: string)
    requires Inv(b) && SoundAll(b, cs) && NoneBooksFor(b, cs, m)
    ensures View(ApplyAll(b, cs), Some(m)) == View(b, Some(m))
    decreases cs
  {
    if cs != [] {
      ChangeLeavesView(b, cs[0], m);
      ApplyInv(b, cs[0]);
      ChangesLeaveView(Apply(b, cs[0]), cs[1..], m);
    }
  }

  /** The merchant of the intent an action is about. */
  function ActsFor(db: Db, a: Action): Option<string> {
    match a
    case Create(_, owner, _, _, _) => owner
    case OpenSession(_, merchant, _, _, _) => Some(merchant)
    case Confirm(i, _, _, _) => if i < |db.books.intents| then db.books.intents[i].merchant else None
    case Cancel(i, _, _, _) => if i < |db.books.intents| then db.books.intents[i].merchant else None
    case Refund(i, _, _, _, _) => if i < |db.books.intents| then db.books.intents[i].merchant else None
    case ViewSession(_, _, _) => None
    case Webhook(d) =>
      if d.event.kind != SUCCEEDED_EVENT || d.event.obj.id.None? then None
      else
        match One(db.books.intents, StripeIdIs(d.event.obj.id.value))
        case OneRow(i) => db.books.intents[i].merchant
        case _ => None
  }

  lemma FirstBooksForActor(db: Db, a: Action)
    requires ChangesOf(db, a) != []
    ensures BooksFor(db.books, ChangesOf(db, a)[0]) in {None, ActsFor(db, a)}
  {
  }

  lemma ActionsBookForOne(db: Db, a: Action, m: string)
    requires ActsFor(db, a) != Some(m)
    ensures NoneBooksFor(db.books, ChangesOf(db, a), m)
  {
    var cs := ChangesOf(db, a);
    ShapeOfChanges(db, a);
    if cs != [] {
      FirstBooksForActor(db, a);
      var rest := cs[1..];
      assert rest != [] ==> rest[1..] == [] && BooksFor(Apply(db.books, cs[0]), rest[0]) == None;
    }
  }

  /** An action on one merchant's intent leaves the rows every other merchant sees exactly as
      they were, so every balance of that merchant too. */
  lemma OtherMerchantsSeeNothing(db: Db, a: Action, m: string)
    requires Inv(db.books) && ActsFor(db, a) != Some(m)
    ensures View(Step(db, a).books, Some(m)) == View(db.books, Some(m))
  {
    StepIsItsChanges(db, a);
    ActionsBookForOne(db, a, m);
    ChangesLeaveView(db.books, ChangesOf(db, a), m);
  }
}
