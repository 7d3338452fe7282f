/** What each request does and answers, read off its inputs: the row by its fields, the ledger by the
    two rows it gains and the positions they move, the replied status by its text, and the event by
    its fields. */
module Effects {
  import opened Common
  import opened Ledger
  import opened Books
  import opened Operations
  import opened Runs
  import opened Lifecycle
  import opened Webhooks

  // --------------------------------------------------------------- bookings

  /** The ledger gains two rows for an intent, a debit and then a credit of the same amount, under a
      transaction id that no row had. */
  ghost predicate BooksPair(b: Books, after: Books, i: nat, debit: string, credit: string, amount: int,
                             currency: string, description: string)
  {
    exists txn :: TwoRows(b, after, txn, i, debit, credit, amount, currency, description)
  }

  ghost predicate TwoRows(b: Books, after: Books, txn: TxnId, i: nat, debit: string, credit: string, amount: int,
                          currency: string, description: string)
  {
    && (forall e :: e in b.ledger ==> e.txn != txn)
    && after.ledger == b.ledger + [Entry(txn, debit, Debit, amount, currency, Some(i), description),
                                   Entry(txn, credit, Credit, amount, currency, Some(i), description)]
  }

  /** From one books to the next, an intent's position on one account falls by an amount, on another rises
      by it, and every other position of every intent stays. */
  ghost predicate Moves(b: Books, after: Books, i: nat, from: string, to: string, amount: int) {
    forall j: nat, account :: PositionOf(after, j, account) == PositionOf(b, j, account)
      + (if j == i && account == to then amount else 0) - (if j == i && account == from then amount else 0)
  }

  lemma TransferBooks(b: Books, after: Books, i: nat, debit: string, credit: string, amount: int, currency: string,
                      description: string)
    requires Recorded(b.ledger)
    requires after.ledger == Transfer(b.ledger, i, debit, credit, amount, currency, description)
    ensures BooksPair(b, after, i, debit, credit, amount, Lower(currency), description)
    ensures Moves(b, after, i, debit, credit, amount)
  {
    NextIdIsFresh(b.ledger);
    assert TwoRows(b, after, Generated(|b.ledger|), i, debit, credit, amount, Lower(currency), description);
    forall j: nat, account ensures PositionOf(after, j, account) == PositionOf(b, j, account)
      + (if j == i && account == credit then amount else 0) - (if j == i && account == debit then amount else 0) {
      TransferPosition(b.ledger, i, debit, credit, amount, currency, description, j, account);
    }
  }

  /** Only one intent's row changes, to `x`, and no session does. */
  ghost predicate RowBecomes(b: Books, after: Books, i: nat, x: Intent) {
    i < |b.intents| && after.intents == b.intents[i := x] && after.sessions == b.sessions
  }

  function NameOf(customer: Option<string>): string {
    match customer
    case None => "anon"
    case Some(name) => if name == "" then "anon" else name
  }

  // ----------------------------------------------------------------- create

  /** No row has the key, and none has the Stripe id. */
  ghost predicate Unused(b: Books, key: string, stripeId: string) {
    forall x :: x in b.intents ==> x.key != key && x.stripeId != Some(stripeId)
  }

  /** A create under a new key, answered by Stripe with a status the gateway knows: the new row has the
      request's terms and customer, the caller's merchant and Stripe's id and status; the amount is
      booked from the customer's pending account to the authorised one. */
  lemma CreateEffect(db: Db, req: CreateRequest, merchant: Option<string>, id: string, status: Status, now: Time,
                     commits: nat)
    requires Inv(db.books) && Unused(db.books, req.key, id) && req.amount >= 1 && commits > 0
    ensures var (after, out) := CreateIntent(db, req, merchant, Reply(id, StatusText(status)), now, commits);
            var n := |db.books.intents|;
            && out == Done(n) && after.events == db.events && after.books.sessions == db.books.sessions
            && after.books.intents == db.books.intents + [Intent(Some(id), req.key, req.amount, Lower(req.currency),
                                                                 0, 0, status, merchant, req.customer)]
            && BooksPair(db.books, after.books, n, "customer_pending:" + NameOf(req.customer), "payments_authorised",
                          req.amount, Lower(req.currency), "payment_intent.created")
            && PositionOf(after.books, n, "customer_pending:" + NameOf(req.customer)) == -req.amount
            && PositionOf(after.books, n, "payments_authorised") == req.amount
  {
    var b, n := db.books, |db.books.intents|;
    var after := CreateIntent(db, req, merchant, Reply(id, StatusText(status)), now, commits).0.books;
    StatusIsItsText(StatusText(status), status);
    Names(req.customer, "");
    AccountsDiffer(req.customer);
    assert forall i :: 0 <= i < n ==> b.intents[i] in b.intents;
    assert forall i :: 0 <= i < n ==> !KeyIs(req.key)(b.intents[i]) && !StripeIdIs(id)(b.intents[i]);
    TransferBooks(b, after, n, PendingAccount(req.customer), AUTHORISED, req.amount, req.currency, CREATION);
    NothingAbove(b, n);
  }

  /** A create under a new key that comes to nothing says why: Stripe failed, it replied a status the gateway
      does not know, its id is another row's, the ledger refuses the amount, or the process died. */
  lemma CreateFails(db: Db, req: CreateRequest, merchant: Option<string>, reply: Reply, now: Time, commits: nat)
    requires forall x :: x in db.books.intents ==> x.key != req.key
    ensures var (after, out) := CreateIntent(db, req, merchant, reply, now, commits);
            var known := reply.Reply? && exists status :: reply.status == StatusText(status);
            var taken := reply.Reply? && exists x :: x in db.books.intents && x.stripeId == Some(reply.id);
            && (out.Done? <==> known && !taken && req.amount >= 1 && commits > 0)
            && (!out.Done? ==> after == db)
            && (reply.StripeError? ==> out == Raised(StripeFailed))
            && (reply.Reply? && !known ==> out == Raised(UnknownStatus))
            && (known && taken ==> out == Raised(DuplicateStripeId))
            && (known && !taken && req.amount <= 0 ==> out == Raised(LedgerRefused))
            && (known && !taken && req.amount >= 1 && commits == 0 ==> out == Died)
  {
    var b := db.books;
    assert forall i :: 0 <= i < |b.intents| ==> b.intents[i] in b.intents && !KeyIs(req.key)(b.intents[i]);
    if reply.Reply? {
      KnownStatus(reply.status);
      var found := One(b.intents, StripeIdIs(reply.id));
      if x :| x in b.intents && x.stripeId == Some(reply.id) {
        var i :| 0 <= i < |b.intents| && b.intents[i] == x;
        assert StripeIdIs(reply.id)(b.intents[i]);
      } else {
        assert forall i :: 0 <= i < |b.intents| ==> !StripeIdIs(reply.id)(b.intents[i]);
      }
    }
  }

  /** The statuses the gateway knows are those with a text. */
  lemma KnownStatus(text: string)
    ensures ParseStatus(text).Some? <==> exists status :: text == StatusText(status)
  {
    if ParseStatus(text).Some? {
      StatusIsItsText(text, ParseStatus(text).value);
    }
    if status :| text == StatusText(status) {
      StatusIsItsText(text, status);
    }
  }

  /** The row stays what it was created as over any run, and its pending account stays that customer's:
      it holds the amount once for every cancellation, less the amount. */
  lemma CreatedRowStays(db: Db, req: CreateRequest, merchant: Option<string>, id: string, status: Status, now: Time,
                        commits: nat, actions: seq<Action>)
    requires Inv(db.books) && Unused(db.books, req.key, id) && req.amount >= 1 && commits > 0
    ensures var created := CreateIntent(db, req, merchant, Reply(id, StatusText(status)), now, commits).0;
            var b, n := Run(created, actions).books, |db.books.intents|;
            && n < |b.intents| && b.intents[n].stripeId == Some(id) && b.intents[n].key == req.key
            && b.intents[n].amount == req.amount && b.intents[n].currency == Lower(req.currency)
            && b.intents[n].merchant == merchant && b.intents[n].customer == req.customer
            && PositionOf(b, n, "customer_pending:" + NameOf(req.customer)) ==
                 Cancellations(b, n) * req.amount - req.amount
            && PositionOf(b, n, "customer:" + NameOf(req.customer)) == b.intents[n].refunded
  {
    var reply := Reply(id, StatusText(status));
    var created := CreateIntent(db, req, merchant, reply, now, commits).0;
    CreateEffect(db, req, merchant, id, status, now, commits);
    StepInv(db, Create(req, merchant, reply, now, commits));
    RunAdvances(created, actions, |db.books.intents|);
    RunInv(created, actions);
    Names(req.customer, "");
    assert IntentOk(Run(created, actions).books, |db.books.intents|);
  }

  // ---------------------------------------------------------------- confirm

  /** Every outcome of a confirm. Where Stripe is asked, replies a status the gateway knows and the commit
      goes through, the row gets exactly the replied status; in every other case nothing changes. */
  lemma ConfirmEffect(db: Db, i: nat, reply: Reply, now: Time, commits: nat)
    requires Inv(db.books)
    ensures var (after, out) := ConfirmIntent(db, i, reply, now, commits);
            if i >= |db.books.intents| then (after, out) == (db, Raised(NotFound))
            else
              var x := db.books.intents[i];
              && (StatusText(x.status) in {"succeeded", "canceled", "failed"} ==> (after, out) == (db, Done(i)))
              && (StatusText(x.status) !in {"succeeded", "canceled", "failed"} ==>
                    && (x.stripeId == Some("") ==> (after, out) == (db, Raised(InvalidState)))
                    && (x.stripeId != Some("") && reply.StripeError? ==> (after, out) == (db, Raised(StripeFailed)))
                    && (x.stripeId != Some("") && reply.Reply? ==> ConfirmReplied(db, i, reply, commits, after, out)))
  {
    if i < |db.books.intents| {
      var x := db.books.intents[i];
      assert IntentOk(db.books, i);
      StatusIsItsText(StatusText(x.status), x.status);
      TerminalText(x.status);
      if reply.Reply? {
        KnownStatus(reply.status);
        forall status | reply.status == StatusText(status) ensures ParseStatus(reply.status) == Some(status) {
          StatusIsItsText(reply.status, status);
        }
      }
    }
  }

  ghost predicate ConfirmReplied(db: Db, i: nat, reply: Reply, commits: nat, after: Db, out: Outcome<nat>)
    requires i < |db.books.intents| && reply.Reply?
  {
    && ((forall status :: reply.status != StatusText(status)) ==> (after, out) == (db, Raised(UnknownStatus)))
    && (forall status :: reply.status == StatusText(status) ==>
          if commits == 0 then (after, out) == (db, Died)
          else
            && out == Done(i) && after.events == db.events && after.books.ledger == db.books.ledger
            && RowBecomes(db.books, after.books, i, db.books.intents[i].(status := status)))
  }

  lemma TerminalText(status: Status)
    ensures StatusText(status) in {"succeeded", "canceled", "failed"} <==> status in {Succeeded, Canceled, Failed}
    ensures StatusText(status) == "succeeded" <==> status == Succeeded
    ensures StatusText(status) == "canceled" <==> status == Canceled
  {
    assert |"requires_payment_method"| == 23 && |"requires_confirmation"| == 21 && |"requires_action"| == 15;
    assert |"processing"| == 10 && |"succeeded"| == 9 && |"canceled"| == 8 && |"failed"| == 6;
  }

  // ----------------------------------------------------------------- cancel

  /** Every outcome of a cancel. Where Stripe is asked, replies a status the gateway knows and the commit
      goes through, the row gets exactly the replied status and its amount is booked back from the
      authorised account to the customer's pending one; in every other case nothing changes. */
  lemma CancelEffect(db: Db, i: nat, reply: Reply, now: Time, commits: nat)
    requires Inv(db.books)
    ensures var (after, out) := CancelIntent(db, i, reply, now, commits);
            if i >= |db.books.intents| then (after, out) == (db, Raised(NotFound))
            else
              var x := db.books.intents[i];
              && (StatusText(x.status) == "canceled" ==> (after, out) == (db, Done(i)))
              && (StatusText(x.status) == "succeeded" ==> (after, out) == (db, Raised(InvalidState)))
              && (StatusText(x.status) !in {"canceled", "succeeded"} ==>
                    && (x.stripeId == Some("") ==> (after, out) == (db, Raised(InvalidState)))
                    && (x.stripeId != Some("") && reply.StripeError? ==> (after, out) == (db, Raised(StripeFailed)))
                    && (x.stripeId != Some("") && reply.Reply? ==> CancelReplied(db, i, reply, commits, after, out)))
  {
    if i < |db.books.intents| {
      var x := db.books.intents[i];
      assert IntentOk(db.books, i);
      TerminalText(x.status);
      if x.status !in {Canceled, Succeeded} && x.stripeId != Some("") && reply.Reply? {
        CancelRepliedSo(db, i, reply, now, commits);
      }
    }
  }

  ghost predicate CancelReplied(db: Db, i: nat, reply: Reply, commits: nat, after: Db, out: Outcome<nat>)
    requires i < |db.books.intents| && reply.Reply?
  {
    var x := db.books.intents[i];
    && ((forall status :: reply.status != StatusText(status)) ==> (after, out) == (db, Raised(UnknownStatus)))
    && (forall status :: reply.status == StatusText(status) ==>
          if commits == 0 then (after, out) == (db, Died)
          else
            && out == Done(i) && after.events == db.events
            && RowBecomes(db.books, after.books, i, x.(status := status))
            && BooksPair(db.books, after.books, i, "payments_authorised", "customer_pending:" + NameOf(x.customer),
                          x.amount, x.currency, "payment_intent.canceled")
            && Moves(db.books, after.books, i, "payments_authorised", "customer_pending:"
                     + NameOf(x.customer), x.amount))
  }

  lemma CancelRepliedSo(db: Db, i: nat, reply: Reply, now: Time, commits: nat)
    requires Inv(db.books) && i < |db.books.intents| && reply.Reply?
    requires db.books.intents[i].status !in {Canceled, Succeeded} && db.books.intents[i].stripeId != Some("")
    ensures var (after, out) := CancelIntent(db, i, reply, now, commits);
            CancelReplied(db, i, reply, commits, after, out)
  {
    var x, after := db.books.intents[i], CancelIntent(db, i, reply, now, commits).0.books;
    assert IntentOk(db.books, i);
    KnownStatus(reply.status);
    Names(x.customer, "");
    forall status | reply.status == StatusText(status) ensures ParseStatus(reply.status) == Some(status) {
      StatusIsItsText(reply.status, status);
    }
    if commits > 0 && ParseStatus(reply.status).Some? {
      TransferBooks(db.books, after, i, AUTHORISED, PendingAccount(x.customer), x.amount, x.currency, CANCELLATION);
    }
  }

  // ----------------------------------------------------------------- refund

  /** The amount a refund request asks for, by its own field or as what is left. */
  ghost predicate AsksFor(x: Intent, amount: Option<int>, n: int) {
    amount == Some(n) || (amount == None && n == x.received - x.refunded)
  }

  /** Every outcome of a refund. It goes through exactly for a succeeded row with a Stripe id, for an amount
      of at least one and at most what is left, if Stripe agrees and the commit goes through; then the
      refunded total rises by the amount, which is booked from the captured account to the customer's.
      In every other case nothing changes, and the answer says why. */
  lemma RefundEffect(db: Db, i: nat, amount: Option<int>, n: int, reply: Reply, now: Time, commits: nat)
    requires Inv(db.books) && (i < |db.books.intents| ==> AsksFor(db.books.intents[i], amount, n))
    ensures var (after, out) := RefundIntent(db, i, amount, reply, now, commits);
            if i >= |db.books.intents| then (after, out) == (db, Raised(NotFound))
            else
              var x := db.books.intents[i];
              var refundable := StatusText(x.status) == "succeeded" && x.stripeId != Some("");
              var fits := 1 <= n <= x.received - x.refunded;
              && (!refundable ==> (after, out) == (db, Raised(NotRefundable)))
              && (refundable && !fits ==> (after, out) == (db, Raised(InvalidAmount)))
              && (refundable && fits && reply.StripeError? ==> (after, out) == (db, Raised(RefundFailed)))
              && (refundable && fits && reply.Reply? && commits == 0 ==> (after, out) == (db, Died))
              && (refundable && fits && reply.Reply? && commits > 0 ==>
                    && out == Done(i) && after.events == db.events
                    && RowBecomes(db.books, after.books, i, x.(refunded := x.refunded + n))
                    && BooksPair(db.books, after.books, i, "payments_captured", "customer:" + NameOf(x.customer), n,
                                  x.currency, "refund:" + reply.id)
                    && Moves(db.books, after.books, i, "payments_captured", "customer:" + NameOf(x.customer), n))
  {
    if i < |db.books.intents| {
      var x, after := db.books.intents[i], RefundIntent(db, i, amount, reply, now, commits).0.books;
      assert IntentOk(db.books, i);
      TerminalText(x.status);
      if x.status == Succeeded && x.stripeId != Some("") && 1 <= n <= x.received - x.refunded && reply.Reply?
        && commits > 0 {
        Names(x.customer, reply.id);
        TransferBooks(db.books, after, i, CAPTURED, CustomerAccount(x.customer), n, x.currency, RefundKind(reply.id));
      }
    }
  }

  // --------------------------------------------------------------- webhooks

  /** The sessions of an intent become completed, and nothing else about sessions changes. */
  ghost predicate Completes(b: Books, after: Books, i: nat) {
    && |after.sessions| == |b.sessions|
    && forall s :: 0 <= s < |b.sessions| ==>
         after.sessions[s] ==
         if b.sessions[s].intent == Some(i) then b.sessions[s].(status := Completed) else b.sessions[s]
  }

  /** A clean delivery of a new success to a row that has not succeeded, whatever its status: the row becomes
      SUCCEEDED with the number the event reports received, by its fields; that number is booked from the
      authorised account to the captured one; the session is completed; the event is processed. */
  lemma CaptureEffect(db: Db, e: Event, now: Time, i: nat, id: string, n: int)
    requires Inv(db.books) && !Processed(db, e.id) && LocalIntent(db.books, i, id)
    requires StatusText(db.books.intents[i].status) != "succeeded"
    requires e.kind == "payment_intent.succeeded" && e.obj.id == Some(id) && ReportsNumber(e.obj, n) && n >= 1
    ensures var (after, out) := Deliver(db, Delivery(e, Smooth, now, 2));
            var x := db.books.intents[i];
            && out == Done(Received)
            && after.books.intents == db.books.intents[i := x.(status := Succeeded, received := n)]
            && Completes(db.books, after.books, i)
            && BooksPair(db.books, after.books, i, "payments_authorised", "payments_captured", n, x.currency,
                          "payment_intent.succeeded")
            && Moves(db.books, after.books, i, "payments_authorised", "payments_captured", n)
            && PositionOf(after.books, i, "payments_captured") == n
            && e.id in after.events && after.events[e.id].processedAt == Some(now)
  {
    var b, x := db.books, db.books.intents[i];
    var after := Deliver(db, Delivery(e, Smooth, now, 2)).0.books;
    assert IntentOk(b, i);
    TerminalText(x.status);
    NumberIsRead(e.obj, n);
    Names(x.customer, "");
    IntentLookup(b, i, id);
    DispatchedCapture(b, e, i, n);
    DeliverBooks(db, Clean(e, now));
    TransferBooks(b, after, i, AUTHORISED, CAPTURED, n, x.currency, CAPTURE);
  }

  lemma DispatchedCapture(b: Books, e: Event, i: nat, n: int)
    requires Inv(b) && e.kind == SUCCEEDED_EVENT && e.obj.id.Some? && LocalIntent(b, i, e.obj.id.value)
    requires EventAmount(e.obj) == Some(n) && n >= 1 && b.intents[i].status != Succeeded
    ensures var x, after := b.intents[i], BooksAfter(b, e);
            && Dispatch(b, e).Applied?
            && after.intents == b.intents[i := x.(status := Succeeded, received := n)]
            && after.ledger == Transfer(b.ledger, i, AUTHORISED, CAPTURED, n, x.currency, CAPTURE)
            && Completes(b, after, i)
  {
    IntentLookup(b, i, e.obj.id.value);
    CaptureDispatches(b, e, i);
    var j := DispatchChange(b, e);
    assert i == j;
  }

  /** An event of any other type is acknowledged and processed, and does nothing. */
  lemma OtherEventsDoNothing(db: Db, e: Event, now: Time)
    requires !Processed(db, e.id) && e.kind != "payment_intent.succeeded" && |db.stamps| == |db.books.intents|
    ensures var (after, out) := Deliver(db, Delivery(e, Smooth, now, 2));
            && out == Done(Received) && after.books == db.books && after.stamps == db.stamps
            && e.id in after.events && after.events[e.id].processedAt == Some(now)
  {
  }

  /** What a delivery leaves in the event table: other events untouched; the event's stored payload if it had
      one and its own if not; processed now exactly if it is answered as received, an error noted exactly
      where it is answered as failed, and nothing at all if it is a duplicate. The books never change without
      the event's row. */
  lemma EventRowAfter(db: Db, d: Delivery)
    ensures var (after, out) := Deliver(db, d);
            var id := d.event.id;
            && (forall other :: other != id ==> (other in after.events <==> other in db.events))
            && (forall other :: other != id && other in db.events ==> after.events[other] == db.events[other])
            && (id in db.events ==> id in after.events && after.events[id].payload == db.events[id].payload)
            && (id !in db.events && id in after.events ==> after.events[id].payload == d.event)
            && (out == Done(Received) ==> id in after.events && after.events[id].processedAt == Some(d.now))
            && (!Processed(db, id) && Processed(after, id) ==> out == Done(Received))
            && (out.Raised? ==> d.glitch != Smooth || Dispatch(db.books, d.event).Refused?)
            && (out.Died? ==> d.commits <= 1)
            && (out.Raised? && id in after.events ==> after.events[id].error)
            && (after.books != db.books ==> id in after.events)
            && (out == Done(Duplicate) <==> id in db.events && db.events[id].processedAt.Some?)
            && (out == Done(Duplicate) ==> after == db)
            && (out.Raised? ==> out == Raised(HandlerFailed))
            && (!out.Done? && id in after.events ==> after.events[id].processedAt == None)
            && (id in after.events && after.events[id].error ==>
                  out == Raised(HandlerFailed) || (id in db.events && db.events[id].error))
  {
  }

  // --------------------------------------------------------------- sessions

  /** A session request under a new key: a new intent for the merchant without a customer, as a create makes
      it, and a new open session for it on the same terms, payable for a day. */
  lemma OpenEffect(db: Db, req: SessionRequest, merchant: string, id: string, status: Status, now: Time, commits: nat)
    requires Inv(db.books) && Unused(db.books, req.key, id) && req.amount >= 1 && commits >= 2
    ensures var (after, out) := CreateSession(db, req, merchant, Reply(id, StatusText(status)), now, commits);
            var n, s := |db.books.intents|, |db.books.sessions|;
            && out == Done(s) && after.events == db.events
            && after.books.intents == db.books.intents + [Intent(Some(id), req.key, req.amount, Lower(req.currency),
                                                                 0, 0, status, Some(merchant), None)]
            && after.books.sessions == db.books.sessions + [Checkout(merchant, Some(n), req.amount,
                                                                     Lower(req.currency), Open, now + 24 * 60 * 60)]
            && BooksPair(db.books, after.books, n, "customer_pending:anon", "payments_authorised", req.amount,
                          Lower(req.currency), "payment_intent.created")
  {
    CreateEffect(db, IntentRequest(req), Some(merchant), id, status, now, commits);
    SessionOpens(db, req, merchant, Reply(id, StatusText(status)), now, commits);
    var created := CreateIntent(db, IntentRequest(req), Some(merchant), Reply(id, StatusText(status)), now, commits).0;
    assert "customer_pending:" + NameOf(None) == "customer_pending:anon";
    SamePair(db.books, created.books,
             CreateSession(db, req, merchant, Reply(id, StatusText(status)), now, commits).0.books,
             |db.books.intents|, "customer_pending:anon", "payments_authorised", req.amount, Lower(req.currency),
             "payment_intent.created");
  }

  lemma SamePair(b: Books, after: Books, after': Books, i: nat, debit: string, credit: string, amount: int,
                 currency: string, description: string)
    requires BooksPair(b, after, i, debit, credit, amount, currency, description) && after'.ledger == after.ledger
    ensures BooksPair(b, after', i, debit, credit, amount, currency, description)
  {
    var txn :| TwoRows(b, after, txn, i, debit, credit, amount, currency, description);
    assert TwoRows(b, after', txn, i, debit, credit, amount, currency, description);
  }

  /** Where the create makes a new row, a session is added for it. */
  lemma SessionOpens(db: Db, req: SessionRequest, merchant: string, reply: Reply, now: Time, commits: nat)
    requires Inv(db.books) && commits >= 2
    requires var (created, out) := CreateIntent(db, IntentRequest(req), Some(merchant), reply, now, commits);
             out == Done(|db.books.intents|) && |created.books.intents| == |db.books.intents| + 1
    ensures var created := CreateIntent(db, IntentRequest(req), Some(merchant), reply, now, commits).0;
            var (after, out) := CreateSession(db, req, merchant, reply, now, commits);
            && out == Done(|db.books.sessions|) && after.events == db.events
            && after.books.intents == created.books.intents && after.books.ledger == created.books.ledger
            && after.books.sessions == db.books.sessions + [Checkout(merchant, Some(|db.books.intents|), req.amount,
                                                                     Lower(req.currency), Open, now + 24 * 60 * 60)]
  {
    var created := CreateIntent(db, IntentRequest(req), Some(merchant), reply, now, commits).0;
    forall t | 0 <= t < |created.books.sessions| ensures !SessionOf(|db.books.intents|)(created.books.sessions[t]) {
      assert SessionOk(db.books, t);
    }
  }

  /** Every outcome of a view: an open session past its time expires, and the view dies if that cannot be
      committed; any other session is shown as it is; a session that is not there is not found. */
  lemma ViewEffect(db: Db, s: nat, now: Time, commits: nat)
    ensures var (after, out) := GetOpenSession(db, s, now, commits);
            if s >= |db.books.sessions| then (after, out) == (db, Raised(NotFound))
            else
              var cs := db.books.sessions[s];
              if cs.status != Open || now <= cs.expiresAt then (after, out) == (db, Done(s))
              else if commits == 0 then (after, out) == (db, Died)
              else
                && out == Done(s) && after.events == db.events && after.books.intents == db.books.intents
                && after.books.ledger == db.books.ledger
                && after.books.sessions == db.books.sessions[s := cs.(status := Expired)]
  {
  }
}
