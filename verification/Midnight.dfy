/** A correct run over two days which the reconciliation of the second day reports. */
module Midnight {
  import opened Common
  import opened Books
  import opened Operations
  import opened Runs
  import opened Lifecycle
  import opened Paging
  import opened Reconciliation
  import opened StripePeer
  import opened EndToEnd
  import opened CatchUp
  import opened Days

  const BOTH_DAYS := Day(0, 172800)
  const SECOND_DAY := Day(86400, 172800)

  const REQUEST := CreateRequest(10, "cad", "order-0001", None)
  const CREATED := Reply("pi_1", "requires_payment_method")
  const PAID := Event("evt_1", SUCCEEDED_EVENT, EventObject(Some("pi_1"), Number(12), Number(10)))

  /** A payment of 10 on the first day, of which 4 are refunded on the second. */
  const CREATING := CreateAt(REQUEST, None, CREATED, 1, 1)
  const PAYING := Charge("pi_1", 10, "txn_1", 2)
  const NOTIFYING := Notify(Delivery(PAID, Smooth, 3, 2))
  const REFUNDING := RefundAt(0, Some(4), "refund-0001", Reply("re_1", "succeeded"), "txn_2", 86401, 1)

  ghost predicate Row(w: World, received: int, refunded: int, status: Status) {
    && |w.db.books.intents| == 1 && w.db.books.sessions == []
    && w.db.books.intents[0] ==
       Intent(Some("pi_1"), "order-0001", 10, Lower("cad"), received, refunded, status, None, None)
  }

  lemma Created()
    ensures Allowed(START, CREATING, BOTH_DAYS)
    ensures var w := Next(START, CREATING);
            && Row(w, 0, 0, RequiresPaymentMethod) && w.db.events == map[] && w.booked == multiset{}
            && w.stripe == Stripe(map["order-0001" := Answer(Creation(10, "cad", None), CREATED)], map[], [], [])
  {
    assert ParseStatus(CREATED.status) == Some(RequiresPaymentMethod);
  }

  lemma Paid(w: World)
    requires Row(w, 0, 0, RequiresPaymentMethod) && w.db.events == map[] && w.booked == multiset{}
    requires w.stripe.charges == map[] && w.stripe.transactions == [] && w.stripe.refunds == []
    ensures Allowed(w, PAYING, BOTH_DAYS)
    ensures var w1 := Next(w, PAYING);
            && Allowed(w1, NOTIFYING, BOTH_DAYS)
            && var w2 := Next(w1, NOTIFYING);
               && Row(w2, 10, 0, Succeeded) && w2.booked == multiset{} && w2.stripe == w1.stripe
               && w2.stripe.answers == w.stripe.answers && w2.stripe.charges == map["pi_1" := 10]
               && w2.stripe.refunds == []
               && w2.stripe.transactions == [ChargeTransaction("txn_1", 2, "pi_1", 10)]
  {
    assert LocalIntent(w.db.books, 0, "pi_1");
    var b := Next(w, PAYING).db.books;
    assert StripeIdIs("pi_1")(b.intents[0]);
    assert One(b.intents, StripeIdIs("pi_1")) == OneRow(0);
  }

  const REFUND_REPLY := Reply("re_1", "succeeded")

  ghost predicate Charged(w: World) {
    && Row(w, 10, 0, Succeeded) && w.booked == multiset{}
    && "refund-0001" !in w.stripe.answers && w.stripe.charges == map["pi_1" := 10] && w.stripe.refunds == []
    && w.stripe.transactions == [ChargeTransaction("txn_1", 2, "pi_1", 10)]
  }

  lemma RefundPasses(b: Books)
    requires |b.intents| == 1 && b.intents[0].status == Succeeded && b.intents[0].stripeId == Some("pi_1")
    requires b.intents[0].received == 10 && b.intents[0].refunded == 0
    ensures RefundCheck(b, 0, Some(4)).None?
  {
  }

  lemma StripeRefunds(st: Stripe)
    requires "refund-0001" !in st.answers && st.charges == map["pi_1" := 10] && st.refunds == []
    requires st.transactions == [ChargeTransaction("txn_1", 2, "pi_1", 10)]
    ensures var (st', reply) := StripeRefund(st, "pi_1", 4, "refund-0001", REFUND_REPLY, "txn_2", 86401);
            && reply == REFUND_REPLY && st'.charges == st.charges
            && st'.refunds == [RefundRecord("refund-0001", "pi_1", 4)]
            && st'.transactions == [ChargeTransaction("txn_1", 2, "pi_1", 10),
                                    RefundTransaction("txn_2", 86401, "pi_1", 4)]
  {
    assert Sum(st.refunds, RefundsOf("pi_1")) == 0;
    assert Replay(st, "refund-0001", RefundOf("pi_1", 4)) == None;
    assert st.refunds + [RefundRecord("refund-0001", "pi_1", 4)] == [RefundRecord("refund-0001", "pi_1", 4)];
  }

  lemma RefundMade(w: World)
    requires Charged(w)
    ensures RefundCheck(w.db.books, 0, Some(4)).None?
    ensures var (st, reply) := CallForRefund(w, 0, Some(4), "refund-0001", REFUND_REPLY, "txn_2", 86401);
            && reply == REFUND_REPLY && st.charges == w.stripe.charges
            && st.refunds == [RefundRecord("refund-0001", "pi_1", 4)]
            && st.transactions == [ChargeTransaction("txn_1", 2, "pi_1", 10),
                                   RefundTransaction("txn_2", 86401, "pi_1", 4)]
  {
    RefundPasses(w.db.books);
    StripeRefunds(w.stripe);
  }

  lemma RefundSaves(db: Db, i: nat, n: int, reply: Reply, now: Time)
    requires RefundCheck(db.books, i, Some(n)).None? && reply.Reply?
    ensures var a := Refund(i, Some(n), reply, now, 1);
            AcceptedRefund(db, a, i) && Step(db, a) == Save(db, BookRefund(db.books, i, n, reply.id), now)
  {
  }

  lemma RefundBooked(w: World)
    requires Charged(w) && |w.db.stamps| == 1
    ensures var a := Refund(0, Some(4), REFUND_REPLY, 86401, 1);
            && AcceptedRefund(w.db, a, 0)
            && var db := Step(w.db, a);
               && |db.books.intents| == |db.stamps| == 1 && db.stamps[0].updated == 86401
               && db.books.intents[0].status == Succeeded
               && db.books.intents[0].received == 10 && db.books.intents[0].refunded == 4
               && db.books.intents[0].stripeId == Some("pi_1")
  {
    RefundMade(w);
    RefundSaves(w.db, 0, 4, REFUND_REPLY, 86401);
    SaveFollows(w.db, BookRefund(w.db.books, 0, 4, "re_1"), 86401);
  }

  lemma Refunded(w: World)
    requires Charged(w) && |w.db.stamps| == 1
    ensures Allowed(w, REFUNDING, BOTH_DAYS)
    ensures var w' := Next(w, REFUNDING);
            && w'.booked == multiset{"refund-0001"} && w'.stripe.charges == w.stripe.charges
            && w'.stripe.refunds == [RefundRecord("refund-0001", "pi_1", 4)]
            && w'.stripe.transactions ==
               [ChargeTransaction("txn_1", 2, "pi_1", 10), RefundTransaction("txn_2", 86401, "pi_1", 4)]
            && |w'.db.books.intents| == |w'.db.stamps| == 1 && w'.db.stamps[0].updated == 86401
            && LocalIntent(w'.db.books, 0, "pi_1") && w'.db.books.intents[0].status == Succeeded
            && w'.db.books.intents[0].received == 10 && w'.db.books.intents[0].refunded == 4
  {
    RefundMade(w);
    RefundBooked(w);
    assert "txn_1"[4] != "txn_2"[4];
    assert w.booked + multiset{"refund-0001"} == multiset{"refund-0001"};
  }

  const TWO_DAYS := [CREATING] + ([PAYING] + ([NOTIFYING] + ([REFUNDING] + [])))

  /** The first day. */
  lemma FirstDay() returns (w1: World, w2: World, w3: World)
    ensures w1 == Next(START, CREATING) && w2 == Next(w1, PAYING) && w3 == Next(w2, NOTIFYING)
    ensures Allowed(START, CREATING, BOTH_DAYS) && Allowed(w1, PAYING, BOTH_DAYS) && Allowed(w2, NOTIFYING, BOTH_DAYS)
    ensures Charged(w3) && |w3.db.stamps| == 1
  {
    w1 := Next(START, CREATING);
    w2 := Next(w1, PAYING);
    w3 := Next(w2, NOTIFYING);
    Created();
    Paid(w1);
    assert "order-0001"[0] != "refund-0001"[0];
    StampsFollowRows(START.db, Create(REQUEST, None, CREATED, 1, 1));
    StampsFollowRows(w2.db, Webhook(Delivery(PAID, Smooth, 3, 2)));
  }

  ghost predicate AtTheEnd(w: World) {
    && w.booked == multiset{"refund-0001"} && w.stripe.charges == map["pi_1" := 10]
    && w.stripe.refunds == [RefundRecord("refund-0001", "pi_1", 4)]
    && w.stripe.transactions ==
       [ChargeTransaction("txn_1", 2, "pi_1", 10), RefundTransaction("txn_2", 86401, "pi_1", 4)]
    && |w.db.books.intents| == |w.db.stamps| == 1 && w.db.stamps[0].updated == 86401
    && LocalIntent(w.db.books, 0, "pi_1") && w.db.books.intents[0].status == Succeeded
    && w.db.books.intents[0].received == 10 && w.db.books.intents[0].refunded == 4
  }

  lemma TheRun()
    ensures AllowedAll(START, TWO_DAYS, BOTH_DAYS) && AtTheEnd(Play(START, TWO_DAYS))
  {
    var w1, w2, w3 := FirstDay();
    Refunded(w3);
    PlayOneMore(w3, REFUNDING, [], BOTH_DAYS);
    PlayOneMore(w2, NOTIFYING, [REFUNDING] + [], BOTH_DAYS);
    PlayOneMore(w1, PAYING, [NOTIFYING] + ([REFUNDING] + []), BOTH_DAYS);
    PlayOneMore(START, CREATING, [PAYING] + ([NOTIFYING] + ([REFUNDING] + [])), BOTH_DAYS);
  }

  lemma EndIsSettled(w: World)
    requires AtTheEnd(w)
    ensures Settled(w) && SettledIntent(w, "pi_1")
  {
    SumZero(w.stripe.refunds, UnbookedRefundsOf("pi_1", w.booked));
    assert LocalIntent(w.db.books, 0, "pi_1");
    assert SettledAt(w, 0, "pi_1");
  }

  /** On the second day the row is touched and money moves, but the charge is elsewhere. */
  lemma EndOnSecondDay(w: World)
    requires AtTheEnd(w)
    ensures Touched(w.db, SECOND_DAY, "pi_1") && Moved(w.stripe, SECOND_DAY, "pi_1")
    ensures Sum(w.stripe.transactions, OutsideOf(SECOND_DAY, "pi_1")) == 10
  {
    var ts := w.stripe.transactions;
    assert TouchedAt(w.db, SECOND_DAY, 0, "pi_1");
    assert MovementIn(SECOND_DAY)(ts[1]) == Some("pi_1");
    SumSnoc([], ts[0], OutsideOf(SECOND_DAY, "pi_1"));
    SumSnoc([] + [ts[0]], ts[1], OutsideOf(SECOND_DAY, "pi_1"));
    assert ts == [] + [ts[0]] + [ts[1]];
  }

  /** Everything is captured and booked, and reconciling both days at once is clean; but the second
      day alone reports the payment, because its row has moved there with its whole net amount
      while its charge is on the first day. */
  lemma SettledYetReported()
    ensures AllowedAll(START, TWO_DAYS, BOTH_DAYS)
    ensures var w := Play(START, TWO_DAYS);
            Settled(w) && DayReport(w, BOTH_DAYS).mismatches == [] && Reports(DayReport(w, SECOND_DAY), "pi_1")
  {
    TheRun();
    EndIsSettled(Play(START, TWO_DAYS));
    EndOnSecondDay(Play(START, TWO_DAYS));
    ReconciliationIsCleanIffSettled(TWO_DAYS, BOTH_DAYS);
    SettledPaymentIsReported(TWO_DAYS, BOTH_DAYS, SECOND_DAY, "pi_1");
  }

  /** The same through the worker: filed under date 1, the run of the second day names the payment, with
      4 refunded at Stripe against the 6 the row says were kept. */
  method ReconcileSecondDay(w: World, pageSize: nat -> nat) returns (runs: seq<RunRow>)
    requires w == Play(START, TWO_DAYS) && forall p :: pageSize(p) >= 1
    ensures |runs| == 1 && runs[0].date == 1
    ensures Reports(runs[0].report, "pi_1") && runs[0].report.totalStripe == -4 && runs[0].report.totalInternal == 6
  {
    TheRun();
    ReachableWorld(TWO_DAYS, BOTH_DAYS);
    SettledYetReported();
    runs := ReconcileDay(w.stripe.transactions, pageSize, w.db, 1, []);
    TotalsOfSecondDay(w);
  }

  lemma TotalsOfSecondDay(w: World)
    requires AtTheEnd(w)
    ensures Sum(w.stripe.transactions, Keyed(MovedOn(1), BtAmount)) == -4
    ensures Sum(Indices(|w.db.books.intents|), Keyed(TouchedOn(w.db, 1), NetAt(w.db))) == 6
  {
    var ts, weight := w.stripe.transactions, Keyed(MovedOn(1), BtAmount);
    assert ts == [] + [ts[0]] + [ts[1]];
    SumSnoc([], ts[0], weight);
    SumSnoc([] + [ts[0]], ts[1], weight);
    assert weight(ts[0]) == 0 && weight(ts[1]) == -4;
    var rows := Indices(1);
    assert rows == [] + [0];
    SumSnoc([], 0, Keyed(TouchedOn(w.db, 1), NetAt(w.db)));
  }
}
