/** The rows the gateway keeps: payment intents, ledger entries and checkout sessions,
    the six ways the code changes them, and the invariant that every change keeps. */
module Books {
  import opened Common
  import opened Ledger

  datatype Status = RequiresPaymentMethod | RequiresConfirmation | RequiresAction | Processing
                  | Succeeded | Canceled | Failed

  /** `PaymentIntentStatus(text)`; a status Stripe has and the enum has not raises. */
  function ParseStatus(text: string): Option<Status> {
    if text == "requires_payment_method" then Some(RequiresPaymentMethod)
    else if text == "requires_confirmation" then Some(RequiresConfirmation)
    else if text == "requires_action" then Some(RequiresAction)
    else if text == "processing" then Some(Processing)
    else if text == "succeeded" then Some(Succeeded)
    else if text == "canceled" then Some(Canceled)
    else if text == "failed" then Some(Failed)
    else None
  }

  datatype SessionStatus = Open | Expired | Completed

  /** A row of `payment_intents`. Its local id is its position in the table. */
  datatype Intent = Intent(stripeId: Option<string>, key: string, amount: int, currency: string,
                           received: int, refunded: int, status: Status,
                           merchant: Option<string>, customer: Option<string>)
  {
    /** `not intent.stripe_payment_intent_id` is true of NULL and of the empty string. */
    predicate HasStripeId() {
      stripeId.Some? && stripeId.value != ""
    }

    function Refundable(): int {
      received - refunded
    }
  }

  /** A row of `checkout_sessions`. Its id is its position in the table. */
  datatype Checkout = Checkout(merchant: string, intent: Option<nat>, amount: int, currency: string,
                               status: SessionStatus, expiresAt: int)

  datatype Books = Books(intents: seq<Intent>, ledger: seq<Entry>, sessions: seq<Checkout>)

  const EMPTY_BOOKS := Books([], [], [])

  // ------------------------------------------------------ rows by Stripe id

  ghost predicate LocalIntent(b: Books, i: nat, id: string) {
    i < |b.intents| && b.intents[i].stripeId == Some(id)
  }

  ghost predicate HasLocalIntent(b: Books, id: string) {
    exists i: nat :: LocalIntent(b, i, id)
  }

  ghost predicate SucceededRow(b: Books, id: string) {
    exists i: nat :: LocalIntent(b, i, id) && b.intents[i].status == Succeeded
  }

  ghost predicate HasReceived(b: Books, id: string) {
    exists i: nat :: LocalIntent(b, i, id) && b.intents[i].received > 0
  }

  // ---------------------------------------------------------------- accounts

  const AUTHORISED := "payments_authorised"
  const CAPTURED := "payments_captured"
  const CREATION := "payment_intent.created"
  const CANCELLATION := "payment_intent.canceled"
  const CAPTURE := "payment_intent.succeeded"

  function CustomerName(customer: Option<string>): string {
    if customer.Some? && customer.value != "" then customer.value else "anon"
  }

  function PendingAccount(customer: Option<string>): string {
    "customer_pending:" + CustomerName(customer)
  }

  function CustomerAccount(customer: Option<string>): string {
    "customer:" + CustomerName(customer)
  }

  function RefundKind(refundId: string): string {
    "refund:" + refundId
  }

  /** The accounts and descriptions by their names. */
  lemma Names(customer: Option<string>, refundId: string)
    ensures AUTHORISED == "payments_authorised" && CAPTURED == "payments_captured"
    ensures var name := if customer == None || customer == Some("") then "anon" else customer.value;
            PendingAccount(customer) == "customer_pending:" + name && CustomerAccount(customer) == "customer:" + name
    ensures CREATION == "payment_intent.created" && CANCELLATION == "payment_intent.canceled"
    ensures CAPTURE == "payment_intent.succeeded" && RefundKind(refundId) == "refund:" + refundId
  {
  }

  /** The text of a status, as Stripe and the table write it. */
  function StatusText(status: Status): string {
    match status
    case RequiresPaymentMethod => "requires_payment_method"
    case RequiresConfirmation => "requires_confirmation"
    case RequiresAction => "requires_action"
    case Processing => "processing"
    case Succeeded => "succeeded"
    case Canceled => "canceled"
    case Failed => "failed"
  }

  /** A status is read back from its text, and no other text has one. */
  lemma StatusIsItsText(text: string, status: Status)
    ensures ParseStatus(text) == Some(status) <==> text == StatusText(status)
    ensures ParseStatus(text).None? <==> text !in {"requires_payment_method", "requires_confirmation",
              "requires_action", "processing", "succeeded", "canceled", "failed"}
  {
    assert |"requires_payment_method"| == 23 && |"requires_confirmation"| == 21 && |"requires_action"| == 15;
    assert |"processing"| == 10 && |"succeeded"| == 9 && |"canceled"| == 8 && |"failed"| == 6;
  }

  /** Whatever the customer is called, the four accounts of an intent are different. */
  lemma AccountsDiffer(customer: Option<string>)
    ensures AUTHORISED != CAPTURED
    ensures PendingAccount(customer) != AUTHORISED && PendingAccount(customer) != CAPTURED
    ensures CustomerAccount(customer) != AUTHORISED && CustomerAccount(customer) != CAPTURED
    ensures PendingAccount(customer) != CustomerAccount(customer)
  {
    assert AUTHORISED[9] == 'a' && CAPTURED[9] == 'c';
    assert PendingAccount(customer)[0] == 'c' && CustomerAccount(customer)[0] == 'c';
    assert AUTHORISED[0] == 'p' && CAPTURED[0] == 'p';
    assert PendingAccount(customer)[8] == '_' && CustomerAccount(customer)[8] == ':';
  }

  lemma KindsDiffer(refundId: string)
    ensures CREATION != CANCELLATION && CREATION != CAPTURE && CANCELLATION != CAPTURE
    ensures RefundKind(refundId) != CREATION && RefundKind(refundId) != CANCELLATION && RefundKind(refundId) != CAPTURE
  {
    assert |CREATION| == 22 && |CANCELLATION| == 23 && |CAPTURE| == 24;
    assert RefundKind(refundId)[0] == 'r';
    assert CREATION[0] == 'p' && CANCELLATION[0] == 'p' && CAPTURE[0] == 'p';
  }

  // ----------------------------------------------------------------- changes

  /** `create_intent`: a new row and the pending authorisation. */
  function AddIntent(b: Books, x: Intent, currency: string): Books {
    Books(b.intents + [x],
          Transfer(b.ledger, |b.intents|, PendingAccount(x.customer), AUTHORISED, x.amount, currency, CREATION),
          b.sessions)
  }

  /** `confirm_intent`: only the status. */
  function SetStatus(b: Books, i: nat, status: Status): Books
    requires i < |b.intents|
  {
    b.(intents := b.intents[i := b.intents[i].(status := status)])
  }

  /** `cancel_intent`: the status Stripe replied and the reversal of the authorisation. */
  function BookCancel(b: Books, i: nat, status: Status): Books
    requires i < |b.intents|
  {
    var x := b.intents[i];
    Books(b.intents[i := x.(status := status)],
          Transfer(b.ledger, i, AUTHORISED, PendingAccount(x.customer), x.amount, x.currency, CANCELLATION),
          b.sessions)
  }

  /** `apply_succeeded_event`: the capture. */
  function BookCapture(b: Books, i: nat, amount: int): Books
    requires i < |b.intents|
  {
    var x := b.intents[i];
    Books(b.intents[i := x.(status := Succeeded, received := amount)],
          Transfer(b.ledger, i, AUTHORISED, CAPTURED, amount, x.currency, CAPTURE),
          b.sessions)
  }

  /** `refund_intent`: the running total and the payment back to the customer. */
  function BookRefund(b: Books, i: nat, amount: int, refundId: string): Books
    requires i < |b.intents|
  {
    var x := b.intents[i];
    Books(b.intents[i := x.(refunded := x.refunded + amount)],
          Transfer(b.ledger, i, CAPTURED, CustomerAccount(x.customer), amount, x.currency, RefundKind(refundId)),
          b.sessions)
  }

  function AddSession(b: Books, s: Checkout): Books {
    b.(sessions := b.sessions + [s])
  }

  function SetSession(b: Books, s: nat, status: SessionStatus): Books
    requires s < |b.sessions|
  {
    b.(sessions := b.sessions[s := b.sessions[s].(status := status)])
  }

  // --------------------------------------------------------------- invariant

  /** How often a cancellation has been booked for an intent. */
  ghost function Cancellations(b: Books, i: nat): int {
    Sum(b.ledger, Bookings(i, CANCELLATION))
  }

  ghost function Captures(b: Books, i: nat): int {
    Sum(b.ledger, Bookings(i, CAPTURE))
  }

  /** The intent's position on one account: credits minus debits. */
  ghost function PositionOf(b: Books, i: nat, account: string): int {
    Sum(b.ledger, Position(i, account))
  }

  /** The ledger positions of an intent in closed form: with amount A, received R, refunded F and
      c booked cancellations, captured is R-F, customer F, authorised A-cA-R, pending cA-A. */
  ghost predicate ClosedForm(b: Books, i: nat)
    requires i < |b.intents|
  {
    var x := b.intents[i];
    var c := Cancellations(b, i);
    && PositionOf(b, i, CAPTURED) == x.received - x.refunded
    && PositionOf(b, i, CustomerAccount(x.customer)) == x.refunded
    && PositionOf(b, i, AUTHORISED) == x.amount - c * x.amount - x.received
    && PositionOf(b, i, PendingAccount(x.customer)) == c * x.amount - x.amount
    && c >= 0
  }

  ghost predicate IntentOk(b: Books, i: nat)
    requires i < |b.intents|
  {
    var x := b.intents[i];
    && x.amount >= 1 && x.stripeId.Some? && Lower(x.currency) == x.currency
    && 0 <= x.refunded <= x.received
    && (x.received > 0 ==> x.status == Succeeded)
    && ClosedForm(b, i)
    && Captures(b, i) == (if x.received > 0 then 1 else 0)
    && Sum(b.ledger, Bookings(i, CREATION)) == 1
  }

  ghost predicate IntentsOk(b: Books) {
    forall i :: 0 <= i < |b.intents| ==> IntentOk(b, i)
  }

  ghost predicate UniqueIntents(b: Books) {
    forall i, j :: 0 <= i < j < |b.intents| ==>
      b.intents[i].key != b.intents[j].key && b.intents[i].stripeId != b.intents[j].stripeId
  }

  /** Every ledger row names an existing intent and is in that intent's currency. */
  ghost predicate Linked(b: Books) {
    forall e :: e in b.ledger ==>
      && e.intent.Some? && e.intent.value < |b.intents|
      && e.currency == b.intents[e.intent.value].currency
  }

  ghost predicate SessionOk(b: Books, s: nat)
    requires s < |b.sessions|
  {
    var cs := b.sessions[s];
    && cs.intent.Some? && cs.intent.value < |b.intents|
    && cs.amount == b.intents[cs.intent.value].amount
    && cs.currency == b.intents[cs.intent.value].currency
    && (cs.status == Completed ==> b.intents[cs.intent.value].status == Succeeded)
  }

  ghost predicate SessionsOk(b: Books) {
    && (forall s :: 0 <= s < |b.sessions| ==> SessionOk(b, s))
    && (forall s, t :: 0 <= s < t < |b.sessions| ==> b.sessions[s].intent != b.sessions[t].intent)
  }

  ghost predicate Inv(b: Books) {
    && IntentsOk(b) && UniqueIntents(b) && Linked(b) && SessionsOk(b) && Recorded(b.ledger)
  }

  lemma EmptyInv()
    ensures Inv(EMPTY_BOOKS)
  {
    assert RecordAll([]) == [];
  }

  /** Rows that do not exist yet have no entries. */
  lemma NothingAbove(b: Books, i: nat)
    requires Linked(b) && |b.intents| <= i
    ensures forall account :: PositionOf(b, i, account) == 0
    ensures forall kind :: Sum(b.ledger, Bookings(i, kind)) == 0
  {
    forall account ensures PositionOf(b, i, account) == 0 {
      SumZero(b.ledger, Position(i, account));
    }
    forall kind ensures Sum(b.ledger, Bookings(i, kind)) == 0 {
      SumZero(b.ledger, Bookings(i, kind));
    }
  }

  /** A booking for intent i leaves the positions and counts of every other intent alone, and
      keeps the ledger linked and written only by `record_transaction`. */
  lemma BookingFrame(b: Books, after: Books, i: nat, debit: string, credit: string, amount: int,
                     currency: string, kind: string)
    requires IntentsOk(b) && Linked(b) && Recorded(b.ledger)
    requires i <= |b.intents| <= |after.intents| && i < |after.intents| && amount > 0
    requires forall j :: 0 <= j < |b.intents| && j != i ==> after.intents[j] == b.intents[j]
    requires i < |b.intents| ==> after.intents[i].currency == b.intents[i].currency
    requires after.intents[i].currency == Lower(currency)
    requires after.ledger == Transfer(b.ledger, i, debit, credit, amount, currency, kind)
    ensures forall j :: 0 <= j < |b.intents| && j != i ==> IntentOk(after, j)
    ensures Linked(after) && Recorded(after.ledger)
  {
    forall j | 0 <= j < |b.intents| && j != i ensures IntentOk(after, j) {
      assert IntentOk(b, j);
      forall account ensures PositionOf(after, j, account) == PositionOf(b, j, account) {
        TransferPosition(b.ledger, i, debit, credit, amount, currency, kind, j, account);
      }
      forall k ensures Sum(after.ledger, Bookings(j, k)) == Sum(b.ledger, Bookings(j, k)) {
        TransferBookings(b.ledger, i, debit, credit, amount, currency, kind, j, k);
      }
    }
    TransferRecords(b.ledger, i, debit, credit, amount, currency, kind);
    RecordedStep(b.ledger, TransferCall(i, debit, credit, amount, currency, kind));
  }

  /** What a booking does to the intent it is for. */
  lemma BookingEffect(b: Books, after: Books, i: nat, debit: string, credit: string, amount: int,
                      currency: string, kind: string)
    requires after.ledger == Transfer(b.ledger, i, debit, credit, amount, currency, kind)
    ensures forall account :: PositionOf(after, i, account) ==
              PositionOf(b, i, account)
                + (if account == credit then amount else 0) - (if account == debit then amount else 0)
    ensures forall k ::
              Sum(after.ledger, Bookings(i, k)) == Sum(b.ledger, Bookings(i, k)) + (if k == kind then 1 else 0)
  {
    forall account ensures PositionOf(after, i, account) ==
        PositionOf(b, i, account)
          + (if account == credit then amount else 0) - (if account == debit then amount else 0) {
      TransferPosition(b.ledger, i, debit, credit, amount, currency, kind, i, account);
    }
    forall k ensures Sum(after.ledger, Bookings(i, k)) == Sum(b.ledger, Bookings(i, k)) + (if k == kind then 1 else 0) {
      TransferBookings(b.ledger, i, debit, credit, amount, currency, kind, i, k);
    }
  }

  lemma AddIntentInv(b: Books, x: Intent, currency: string)
    requires Inv(b)
    requires x.amount >= 1 && x.received == x.refunded == 0 && x.stripeId.Some? && x.currency == Lower(currency)
    requires forall j :: 0 <= j < |b.intents| ==> b.intents[j].key != x.key && b.intents[j].stripeId != x.stripeId
    ensures Inv(AddIntent(b, x, currency))
  {
    var after, i := AddIntent(b, x, currency), |b.intents|;
    AccountsDiffer(x.customer);
    KindsDiffer("");
    NothingAbove(b, i);
    LowerIdempotent(currency);
    BookingFrame(b, after, i, PendingAccount(x.customer), AUTHORISED, x.amount, currency, CREATION);
    BookingEffect(b, after, i, PendingAccount(x.customer), AUTHORISED, x.amount, currency, CREATION);
    assert IntentOk(after, i);
    forall s | 0 <= s < |after.sessions| ensures SessionOk(after, s) {
      assert SessionOk(b, s);
    }
  }

  lemma SetStatusInv(b: Books, i: nat, status: Status)
    requires Inv(b) && i < |b.intents| && b.intents[i].status != Succeeded
    ensures Inv(SetStatus(b, i, status))
  {
    var after := SetStatus(b, i, status);
    forall j | 0 <= j < |after.intents| ensures IntentOk(after, j) {
      assert IntentOk(b, j);
    }
    forall s | 0 <= s < |after.sessions| ensures SessionOk(after, s) {
      assert SessionOk(b, s);
    }
  }

  lemma BookCancelInv(b: Books, i: nat, status: Status)
    requires Inv(b) && i < |b.intents| && b.intents[i].status != Succeeded
    ensures Inv(BookCancel(b, i, status))
    ensures Cancellations(BookCancel(b, i, status), i) == Cancellations(b, i) + 1
  {
    var after, x := BookCancel(b, i, status), b.intents[i];
    assert IntentOk(b, i);
    AccountsDiffer(x.customer);
    KindsDiffer("");
    BookingFrame(b, after, i, AUTHORISED, PendingAccount(x.customer), x.amount, x.currency, CANCELLATION);
    BookingEffect(b, after, i, AUTHORISED, PendingAccount(x.customer), x.amount, x.currency, CANCELLATION);
    assert IntentOk(after, i);
    forall s | 0 <= s < |after.sessions| ensures SessionOk(after, s) {
      assert SessionOk(b, s);
    }
  }

  lemma BookCaptureInv(b: Books, i: nat, amount: int)
    requires Inv(b) && i < |b.intents| && b.intents[i].status != Succeeded && amount > 0
    ensures Inv(BookCapture(b, i, amount))
  {
    var after, x := BookCapture(b, i, amount), b.intents[i];
    assert IntentOk(b, i);
    AccountsDiffer(x.customer);
    KindsDiffer("");
    BookingFrame(b, after, i, AUTHORISED, CAPTURED, amount, x.currency, CAPTURE);
    BookingEffect(b, after, i, AUTHORISED, CAPTURED, amount, x.currency, CAPTURE);
    assert IntentOk(after, i);
    forall s | 0 <= s < |after.sessions| ensures SessionOk(after, s) {
      assert SessionOk(b, s);
    }
  }

  lemma BookRefundInv(b: Books, i: nat, amount: int, refundId: string)
    requires Inv(b) && i < |b.intents| && 0 < amount <= b.intents[i].Refundable()
    ensures Inv(BookRefund(b, i, amount, refundId))
  {
    var after, x := BookRefund(b, i, amount, refundId), b.intents[i];
    assert IntentOk(b, i);
    AccountsDiffer(x.customer);
    KindsDiffer(refundId);
    BookingFrame(b, after, i, CAPTURED, CustomerAccount(x.customer), amount, x.currency, RefundKind(refundId));
    BookingEffect(b, after, i, CAPTURED, CustomerAccount(x.customer), amount, x.currency, RefundKind(refundId));
    assert IntentOk(after, i);
    forall s | 0 <= s < |after.sessions| ensures SessionOk(after, s) {
      assert SessionOk(b, s);
    }
  }

  /** Sessions are not on the ledger, so a change to them leaves the intents as they were. */
  lemma SessionFrame(b: Books, after: Books)
    requires Inv(b) && after.intents == b.intents && after.ledger == b.ledger && SessionsOk(after)
    ensures Inv(after)
  {
    forall i | 0 <= i < |after.intents| ensures IntentOk(after, i) {
      assert IntentOk(b, i);
    }
  }

  lemma AddSessionInv(b: Books, s: Checkout)
    requires Inv(b) && s.intent.Some? && s.intent.value < |b.intents| && s.status != Completed
    requires s.amount == b.intents[s.intent.value].amount && s.currency == b.intents[s.intent.value].currency
    requires forall t :: 0 <= t < |b.sessions| ==> b.sessions[t].intent != s.intent
    ensures Inv(AddSession(b, s))
  {
    var after := AddSession(b, s);
    forall t | 0 <= t < |after.sessions| ensures SessionOk(after, t) {
      if t < |b.sessions| { assert SessionOk(b, t); }
    }
    SessionFrame(b, after);
  }

  lemma SetSessionInv(b: Books, s: nat, status: SessionStatus)
    requires Inv(b) && s < |b.sessions|
    requires status == Completed ==> b.sessions[s].intent.Some? && b.sessions[s].intent.value < |b.intents|
                                     && b.intents[b.sessions[s].intent.value].status == Succeeded
    ensures Inv(SetSession(b, s, status))
  {
    var after := SetSession(b, s, status);
    forall t | 0 <= t < |after.sessions| ensures SessionOk(after, t) {
      assert SessionOk(b, t);
    }
    SessionFrame(b, after);
  }
}
