/** What a merchant sees: the rows of the merchant's own intents, no more and no less, as they come; and
    balances as sums over intents. */
module Views {
  import opened Common
  import opened Ledger
  import opened Books
  import opened Operations
  import opened Runs
  import opened Lifecycle
  import opened Balances
  import opened Effects

  /** The row names an intent there is, whose merchant is m. */
  function IsFor(b: Books, m: string): Entry -> bool {
    (e: Entry) => e.intent.Some? && e.intent.value < |b.intents| && b.intents[e.intent.value].merchant == Some(m)
  }

  /** A row is in a merchant's view exactly if it is on the ledger and names an intent there is, whose
      merchant that is; the view keeps the ledger's order; the global view is the ledger. */
  lemma ViewMembers(b: Books, m: string)
    ensures View(b, Some(m)) == Filter(b.ledger, IsFor(b, m))
    ensures forall e :: e in View(b, Some(m)) <==>
              e in b.ledger && e.intent.Some? && e.intent.value < |b.intents|
              && b.intents[e.intent.value].merchant == Some(m)
    ensures View(b, None) == b.ledger
  {
    FilterSame(b.ledger, OwnedBy(b, Some(m)), IsFor(b, m));
    FilterMembers(b.ledger, IsFor(b, m));
  }

  // ----------------------------------------------------------------- growing

  /** Two rows booked for an intent appear in the view of its merchant, both of them, and in no other. */
  lemma PairShowsInView(b: Books, after: Books, txn: TxnId, i: nat, debit: string, credit: string, amount: int,
                        currency: string, description: string, m: string)
    requires Linked(b) && |b.intents| <= |after.intents| && i < |after.intents|
    requires forall j :: 0 <= j < |b.intents| ==> after.intents[j].merchant == b.intents[j].merchant
    requires TwoRows(b, after, txn, i, debit, credit, amount, currency, description)
    ensures View(after, Some(m)) ==
            if after.intents[i].merchant != Some(m) then View(b, Some(m))
            else View(b, Some(m)) + [Entry(txn, debit, Debit, amount, currency, Some(i), description),
                                     Entry(txn, credit, Credit, amount, currency, Some(i), description)]
  {
    var p := IsFor(after, m);
    var d := Entry(txn, debit, Debit, amount, currency, Some(i), description);
    var c := Entry(txn, credit, Credit, amount, currency, Some(i), description);
    ViewMembers(b, m);
    ViewMembers(after, m);
    FilterPair(b.ledger, d, c, p);
    assert p(d) == p(c) == (after.intents[i].merchant == Some(m));
    FilterSame(b.ledger, IsFor(b, m), p);
  }

  lemma FilterPair(es: seq<Entry>, d: Entry, c: Entry, p: Entry -> bool)
    requires p(d) == p(c)
    ensures Filter(es + [d, c], p) == if p(d) then Filter(es, p) + [d, c] else Filter(es, p)
  {
    assert es + [d, c] == es + [d] + [c];
    FilterSnoc(es, d, p);
    FilterSnoc(es + [d], c, p);
  }

  lemma ChangeGrows(b: Books, c: Change)
    requires Inv(b) && Sound(b, c)
    ensures var after := Apply(b, c);
            && b.ledger <= after.ledger && |b.intents| <= |after.intents|
            && forall j :: 0 <= j < |b.intents| ==> after.intents[j].merchant == b.intents[j].merchant
  {
  }

  lemma {:induction false} ChangesGrow(b: Books, cs: seq<Change>)
    requires Inv(b) && SoundAll(b, cs)
    ensures var after := ApplyAll(b, cs);
            && b.ledger <= after.ledger && |b.intents| <= |after.intents|
            && forall j :: 0 <= j < |b.intents| ==> after.intents[j].merchant == b.intents[j].merchant
    decreases cs
  {
    if cs != [] {
      ChangeGrows(b, cs[0]);
      ApplyInv(b, cs[0]);
      ChangesGrow(Apply(b, cs[0]), cs[1..]);
    }
  }

  /** Whatever a request does, every merchant's view gains exactly those of the new rows that are for the
      merchant's intents, in their order; nothing in it is changed or lost. */
  lemma StepView(db: Db, a: Action, m: string)
    requires Inv(db.books)
    ensures var b, after := db.books, Step(db, a).books;
            && b.ledger <= after.ledger
            && View(after, Some(m)) == View(b, Some(m)) + Filter(after.ledger[|b.ledger|..], IsFor(after, m))
  {
    var b, after := db.books, Step(db, a).books;
    StepIsItsChanges(db, a);
    ChangesGrow(b, ChangesOf(db, a));
    ViewMembers(b, m);
    ViewMembers(after, m);
    assert after.ledger == b.ledger + after.ledger[|b.ledger|..];
    FilterAppend(b.ledger, after.ledger[|b.ledger|..], IsFor(after, m));
    FilterSame(b.ledger, IsFor(b, m), IsFor(after, m));
  }

  // ---------------------------------------------------------------- balances

  /** An intent is in a view and a currency. */
  predicate Counts(b: Books, merchant: Option<string>, currency: string, i: nat) {
    i < |b.intents| && b.intents[i].currency == Lower(currency)
      && (merchant == None || b.intents[i].merchant == merchant)
  }

  ghost function PositionIn(b: Books, merchant: Option<string>, account: string, currency: string): nat -> int {
    (i: nat) => if Counts(b, merchant, currency, i) then PositionOf(b, i, account) else 0
  }

  function IntentOf(e: Entry): Option<nat> {
    e.intent
  }

  function PartWeight(b: Books, merchant: Option<string>, account: string, currency: string, i: nat): Entry -> int {
    (e: Entry) => if Counts(b, merchant, currency, i) then Position(i, account)(e) else 0
  }

  lemma PartOfEntry(b: Books, merchant: Option<string>, account: string, currency: string, i: nat, e: Entry)
    requires Linked(b) && i < |b.intents| && e in b.ledger
    ensures PartWeight(b, merchant, account, currency, i)(e) ==
            if merchant.None? || OwnerOf(b, e) == merchant
            then Restrict(IntentOf, OnAccount(account, Lower(currency)), i)(e) else 0
  {
    if e.intent == Some(i) {
      assert e.currency == b.intents[i].currency && OwnerOf(b, e) == b.intents[i].merchant;
      assert IntentOf(e) == e.intent;
      var w := OnAccount(account, Lower(currency));
      assert Restrict(IntentOf, w, i)(e) == w(e);
      assert w(e) == if e.account == account && e.currency == Lower(currency) then Signed(e) else 0;
      assert Position(i, account)(e) == if e.account == account then Signed(e) else 0;
      assert Counts(b, merchant, currency, i) <==>
             e.currency == Lower(currency) && (merchant.None? || OwnerOf(b, e) == merchant);
    } else {
      assert Position(i, account)(e) == 0;
      assert PartWeight(b, merchant, account, currency, i)(e) == 0;
      assert IntentOf(e) == e.intent;
      assert Restrict(IntentOf, OnAccount(account, Lower(currency)), i)(e) == 0;
    }
  }

  /** One intent's part of a balance is its position, where it is in the view and the currency. */
  lemma PartOfIntent(b: Books, merchant: Option<string>, account: string, currency: string, i: nat)
    requires Linked(b) && i < |b.intents|
    ensures Sum(View(b, merchant), Restrict(IntentOf, OnAccount(account, Lower(currency)), i)) ==
            PositionIn(b, merchant, account, currency)(i)
  {
    var part := Restrict(IntentOf, OnAccount(account, Lower(currency)), i);
    var weight := PartWeight(b, merchant, account, currency, i);
    forall e | e in b.ledger
      ensures weight(e) == if merchant.None? || OwnerOf(b, e) == merchant then part(e) else 0 {
      PartOfEntry(b, merchant, account, currency, i, e);
    }
    if merchant.None? {
      SumSame(b.ledger, part, weight);
    } else {
      FilterSum(b.ledger, OwnedBy(b, merchant), part, weight);
    }
    if Counts(b, merchant, currency, i) {
      SumSame(b.ledger, weight, Position(i, account));
    } else {
      SumZero(b.ledger, weight);
    }
  }

  /** A balance, of all books or of one merchant's, is the sum of the positions of the intents it is about. */
  lemma BalanceIsPositions(b: Books, merchant: Option<string>, account: string, currency: string)
    requires Linked(b)
    ensures GetBalance(View(b, merchant), account, currency) ==
            Sum(Indices(|b.intents|), PositionIn(b, merchant, account, currency))
  {
    var view, w, ids := View(b, merchant), OnAccount(account, Lower(currency)), Indices(|b.intents|);
    FilterMembers(b.ledger, OwnedBy(b, merchant));
    forall e | e in view ensures e.intent.Some? && e.intent.value in ids {
      assert e in b.ledger;
      assert ids[e.intent.value] == e.intent.value;
    }
    GroupTotal(view, IntentOf, w, ids);
    SumSame(view, Keyed(IntentOf, w), w);
    forall i | i in ids ensures GroupSum(view, IntentOf, w)(i) == PositionIn(b, merchant, account, currency)(i) {
      PartOfIntent(b, merchant, account, currency, i);
    }
    SumSame(ids, GroupSum(view, IntentOf, w), PositionIn(b, merchant, account, currency));
  }

  function KeptBy(b: Books, merchant: Option<string>, currency: string): nat -> int {
    (i: nat) => if Counts(b, merchant, currency, i) then b.intents[i].received - b.intents[i].refunded else 0
  }

  /** In every reachable state, the balance of the captured account, of all books or of one merchant's, is what
      the intents in that currency have received and not refunded. */
  lemma CapturedBalance(actions: seq<Action>, merchant: Option<string>, currency: string)
    ensures var b := Run(EMPTY_DB, actions).books;
            GetBalance(View(b, merchant), "payments_captured", currency) ==
            Sum(Indices(|b.intents|), KeptBy(b, merchant, currency))
  {
    var b := Run(EMPTY_DB, actions).books;
    ReachableInv(actions);
    BalanceIsPositions(b, merchant, "payments_captured", currency);
    forall i | i in Indices(|b.intents|)
      ensures PositionIn(b, merchant, "payments_captured", currency)(i) == KeptBy(b, merchant, currency)(i) {
      assert IntentOk(b, i);
    }
    SumSame(Indices(|b.intents|), PositionIn(b, merchant, "payments_captured", currency),
            KeptBy(b, merchant, currency));
  }
}
