/** Every request comes down to a few sound changes of the books, and what every reachable state
    satisfies because of it. */
module Runs {
  import opened Common
  import opened Ledger
  import opened Books
  import opened Operations

  // ----------------------------------------------------------------- lookups

  /** A lookup by Stripe id finds the intent that has it, and never two. */
  lemma IntentLookup(b: Books, i: nat, id: string)
    requires UniqueIntents(b) && i < |b.intents| && b.intents[i].stripeId == Some(id)
    ensures One(b.intents, StripeIdIs(id)) == OneRow(i)
  {
    assert StripeIdIs(id)(b.intents[i]);
    assert forall j, k :: 0 <= j < k < |b.intents| ==> !(StripeIdIs(id)(b.intents[j]) && StripeIdIs(id)(b.intents[k]));
  }

  /** `find_by_payment_intent` never sees two rows, so it never raises. */
  lemma SessionLookup(b: Books, i: nat)
    requires SessionsOk(b)
    ensures !One(b.sessions, SessionOf(i)).ManyRows?
  {
    assert forall s, t :: 0 <= s < t < |b.sessions| ==> !(SessionOf(i)(b.sessions[s]) && SessionOf(i)(b.sessions[t]));
  }

  // ----------------------------------------------------------------- changes

  datatype Change =
    | RowAdded(row: Intent, currency: string)
    | StatusSet(intent: nat, status: Status)
    | Reversal(intent: nat, status: Status)
    | Capture(intent: nat, amount: int)
    | Repayment(intent: nat, amount: int, refundId: string)
    | SessionAdded(added: Checkout)
    | SessionMoved(session: nat, rank: SessionStatus)

  /** When a change is one the code would make. */
  ghost predicate Sound(b: Books, c: Change) {
    match c
    case RowAdded(x, currency) =>
      && x.amount >= 1 && x.received == x.refunded == 0 && x.stripeId.Some? && x.currency == Lower(currency)
      && forall j :: 0 <= j < |b.intents| ==> b.intents[j].key != x.key && b.intents[j].stripeId != x.stripeId
    case StatusSet(i, _) => i < |b.intents| && b.intents[i].status !in {Succeeded, Canceled, Failed}
    case Reversal(i, _) => i < |b.intents| && b.intents[i].status !in {Succeeded, Canceled}
    case Capture(i, amount) => i < |b.intents| && b.intents[i].status != Succeeded && amount > 0
    case Repayment(i, amount, _) =>
      i < |b.intents| && b.intents[i].status == Succeeded && 0 < amount <= b.intents[i].Refundable()
    case SessionAdded(cs) =>
      && cs.intent.Some? && cs.intent.value < |b.intents| && cs.status == Open
      && cs.amount == b.intents[cs.intent.value].amount && cs.currency == b.intents[cs.intent.value].currency
      && forall t :: 0 <= t < |b.sessions| ==> b.sessions[t].intent != cs.intent
    case SessionMoved(s, status) =>
      && s < |b.sessions|
      && (if status == Completed then
            && b.sessions[s].status != Completed
            && b.sessions[s].intent.Some? && b.sessions[s].intent.value < |b.intents|
            && b.intents[b.sessions[s].intent.value].status == Succeeded
          else status == Expired && b.sessions[s].status == Open)
  }

  function Apply(b: Books, c: Change): Books {
    match c
    case RowAdded(x, currency) => AddIntent(b, x, currency)
    case StatusSet(i, status) => if i < |b.intents| then SetStatus(b, i, status) else b
    case Reversal(i, status) => if i < |b.intents| then BookCancel(b, i, status) else b
    case Capture(i, amount) => if i < |b.intents| then BookCapture(b, i, amount) else b
    case Repayment(i, amount, refundId) => if i < |b.intents| then BookRefund(b, i, amount, refundId) else b
    case SessionAdded(cs) => AddSession(b, cs)
    case SessionMoved(s, status) => if s < |b.sessions| then SetSession(b, s, status) else b
  }

  function ApplyAll(b: Books, cs: seq<Change>): Books
    decreases cs
  {
    if cs == [] then b else ApplyAll(Apply(b, cs[0]), cs[1..])
  }

  ghost predicate SoundAll(b: Books, cs: seq<Change>)
    decreases cs
  {
    cs == [] || (Sound(b, cs[0]) && SoundAll(Apply(b, cs[0]), cs[1..]))
  }

  /** The changes an action makes, read off its parameters. */
  function ChangesOf(db: Db, a: Action): seq<Change> {
    var b := db.books;
    match a
    case Create(req, owner, reply, now, commits) => CreateChanges(db, req, owner, reply, now, commits)
    case Confirm(i, reply, now, commits) =>
      var (db', out) := ConfirmIntent(db, i, reply, now, commits);
      if db' == db then [] else [StatusSet(i, ParseStatus(reply.status).value)]
    case Cancel(i, reply, now, commits) =>
      var (db', out) := CancelIntent(db, i, reply, now, commits);
      if db' == db then [] else [Reversal(i, ParseStatus(reply.status).value)]
    case Refund(i, amount, reply, now, commits) =>
      if RefundIntent(db, i, amount, reply, now, commits).1.Done?
      then [Repayment(i, RefundAmount(b.intents[i], amount), reply.id)] else []
    case OpenSession(req, merchant, reply, now, commits) =>
      var (db1, out) := CreateIntent(db, IntentRequest(req), Some(merchant), reply, now, commits);
      CreateChanges(db, IntentRequest(req), Some(merchant), reply, now, commits)
      + (if out.Done? && CreateSession(db, req, merchant, reply, now, commits).0 != db1
         then [SessionAdded(NewSession(req, merchant, out.value, now))] else [])
    case ViewSession(s, now, commits) =>
      if GetOpenSession(db, s, now, commits).0 == db then [] else [SessionMoved(s, Expired)]
    case Webhook(d) =>
      if Deliver(db, d).0.books == b then [] else DispatchChanges(b, d.event)
  }

  function CreateChanges(db: Db, req: CreateRequest, owner: Option<string>, reply: Reply, now: Time,
                         commits: nat): seq<Change> {
    if CreateIntent(db, req, owner, reply, now, commits).0 == db then []
    else [RowAdded(NewIntent(req, owner, reply.id, ParseStatus(reply.status).value), req.currency)]
  }

  function DispatchChanges(b: Books, e: Event): seq<Change> {
    if !Dispatch(b, e).Applied? || Dispatch(b, e).books == b then []
    else
      var i := One(b.intents, StripeIdIs(e.obj.id.value)).row;
      var session := One(b.sessions, SessionOf(i));
      (if b.intents[i].status == Succeeded then [] else [Capture(i, EventAmount(e.obj).value)])
      + (if session.OneRow? && b.sessions[session.row].status != Completed
         then [SessionMoved(session.row, Completed)] else [])
  }

  // ------------------------------------------ requests come down to changes

  /** The row a create answers with matches the request, whether it is new or a replay. */
  lemma CreateAnswers(db: Db, req: CreateRequest, merchant: Option<string>, reply: Reply, now: Time, commits: nat)
    ensures var (db', out) := CreateIntent(db, req, merchant, reply, now, commits);
            out.Done? ==> out.value < |db'.books.intents| && db'.books.intents[out.value].key == req.key
                          && Matches(db'.books.intents[out.value], req)
  {
  }

  lemma CreateIsItsChanges(db: Db, req: CreateRequest, owner: Option<string>, reply: Reply, now: Time, commits: nat)
    ensures var cs := CreateChanges(db, req, owner, reply, now, commits);
            SoundAll(db.books, cs) && CreateIntent(db, req, owner, reply, now, commits).0.books ==
              ApplyAll(db.books, cs)
  {
    var b := db.books;
    if CreateIntent(db, req, owner, reply, now, commits).0 != db {
      assert forall j :: 0 <= j < |b.intents| ==> !KeyIs(req.key)(b.intents[j]) && !StripeIdIs(reply.id)(b.intents[j]);
    }
  }

  lemma {:induction false} ApplyBoth(b: Books, cs: seq<Change>, c: Change)
    requires SoundAll(b, cs) && Sound(ApplyAll(b, cs), c)
    ensures SoundAll(b, cs + [c]) && ApplyAll(b, cs + [c]) == Apply(ApplyAll(b, cs), c)
    decreases cs
  {
    if cs == [] {
      assert cs + [c] == [c];
    } else {
      ApplyBoth(Apply(b, cs[0]), cs[1..], c);
      assert (cs + [c])[1..] == cs[1..] + [c];
    }
  }

  lemma OpenIsItsChanges(db: Db, req: SessionRequest, merchant: string, reply: Reply, now: Time, commits: nat)
    ensures var cs := ChangesOf(db, OpenSession(req, merchant, reply, now, commits));
            SoundAll(db.books, cs) && CreateSession(db, req, merchant, reply, now, commits).0.books ==
              ApplyAll(db.books, cs)
  {
    var (db1, out) := CreateIntent(db, IntentRequest(req), Some(merchant), reply, now, commits);
    var cs := CreateChanges(db, IntentRequest(req), Some(merchant), reply, now, commits);
    CreateIsItsChanges(db, IntentRequest(req), Some(merchant), reply, now, commits);
    CreateAnswers(db, IntentRequest(req), Some(merchant), reply, now, commits);
    var db2 := CreateSession(db, req, merchant, reply, now, commits).0;
    if out.Done? && db2 != db1 {
      assert forall t :: 0 <= t < |db1.books.sessions| ==> !SessionOf(out.value)(db1.books.sessions[t]);
      ApplyBoth(db.books, cs, SessionAdded(NewSession(req, merchant, out.value, now)));
    } else {
      assert cs + [] == cs;
    }
  }

  lemma DispatchIsItsChanges(b: Books, e: Event)
    requires Dispatch(b, e).Applied?
    ensures SoundAll(b, DispatchChanges(b, e)) && Dispatch(b, e).books == ApplyAll(b, DispatchChanges(b, e))
  {
    if Dispatch(b, e).books != b {
      var i := One(b.intents, StripeIdIs(e.obj.id.value)).row;
      var b1 := ApplySucceeded(b, i, EventAmount(e.obj).value).value;
      assert b1.sessions == b.sessions;
      var first := if b.intents[i].status == Succeeded then [] else [Capture(i, EventAmount(e.obj).value)];
      if first != [] {
        var c := Capture(i, EventAmount(e.obj).value);
        assert Apply(b, c) == b1;
        ApplyBoth(b, [], c);
        assert [] + [c] == first;
      }
      assert SoundAll(b, first) && ApplyAll(b, first) == b1;
      var session := One(b.sessions, SessionOf(i));
      if session.OneRow? && b.sessions[session.row].status != Completed {
        assert SessionOf(i)(b.sessions[session.row]);
        ApplyBoth(b, first, SessionMoved(session.row, Completed));
      } else {
        assert first + [] == first;
      }
    }
  }

  /** Every action is a list of sound changes. */
  lemma StepIsItsChanges(db: Db, a: Action)
    ensures SoundAll(db.books, ChangesOf(db, a)) && Step(db, a).books == ApplyAll(db.books, ChangesOf(db, a))
  {
    match a
    case Create(req, owner, reply, now, commits) => CreateIsItsChanges(db, req, owner, reply, now, commits);
    case OpenSession(req, merchant, reply, now, commits) => OpenIsItsChanges(db, req, merchant, reply, now, commits);
    case Webhook(d) => DeliverIsItsChanges(db, d);
    case _ => OneChange(db, a);
  }

  lemma DeliverIsItsChanges(db: Db, d: Delivery)
    ensures var cs := ChangesOf(db, Webhook(d));
            SoundAll(db.books, cs) && Deliver(db, d).0.books == ApplyAll(db.books, cs)
  {
    if Deliver(db, d).0.books != db.books {
      assert Dispatch(db.books, d.event).Applied? && Deliver(db, d).0.books == Dispatch(db.books, d.event).books;
      DispatchIsItsChanges(db.books, d.event);
    }
  }

  /** The actions that make at most one change. */
  lemma OneChange(db: Db, a: Action)
    requires a.Confirm? || a.Cancel? || a.Refund? || a.ViewSession?
    ensures SoundAll(db.books, ChangesOf(db, a)) && Step(db, a).books == ApplyAll(db.books, ChangesOf(db, a))
  {
    var cs := ChangesOf(db, a);
    if cs != [] {
      assert Sound(db.books, cs[0]) && Step(db, a).books == Apply(db.books, cs[0]);
      assert cs[1..] == [];
    }
  }

  /** An action makes at most two changes, and the second one, if any, is about a session. */
  lemma ShapeOfChanges(db: Db, a: Action)
    ensures var cs := ChangesOf(db, a);
            && |cs| <= 2 && (|cs| == 2 ==> cs[1].SessionMoved? || cs[1].SessionAdded?)
            && (|cs| == 2 && cs[0].RowAdded? ==> cs[1].SessionAdded?)
  {
  }

  // --------------------------------------------------------------- invariant

  lemma ApplyInv(b: Books, c: Change)
    requires Inv(b) && Sound(b, c)
    ensures Inv(Apply(b, c))
  {
    match c
    case RowAdded(x, currency) => AddIntentInv(b, x, currency);
    case StatusSet(i, status) => SetStatusInv(b, i, status);
    case Reversal(i, status) => BookCancelInv(b, i, status);
    case Capture(i, amount) => BookCaptureInv(b, i, amount);
    case Repayment(i, amount, refundId) => BookRefundInv(b, i, amount, refundId);
    case SessionAdded(cs) => AddSessionInv(b, cs);
    case SessionMoved(s, status) => SetSessionInv(b, s, status);
  }

  lemma {:induction false} ApplyAllInv(b: Books, cs: seq<Change>)
    requires Inv(b) && SoundAll(b, cs)
    ensures Inv(ApplyAll(b, cs))
    decreases cs
  {
    if cs != [] {
      ApplyInv(b, cs[0]);
      ApplyAllInv(Apply(b, cs[0]), cs[1..]);
    }
  }

  lemma DispatchInv(b: Books, e: Event)
    requires Inv(b)
    ensures Dispatch(b, e).Applied? ==> Inv(Dispatch(b, e).books)
  {
    if Dispatch(b, e).Applied? {
      DispatchIsItsChanges(b, e);
      ApplyAllInv(b, DispatchChanges(b, e));
    }
  }

  lemma StepInv(db: Db, a: Action)
    requires Inv(db.books)
    ensures Inv(Step(db, a).books)
  {
    StepIsItsChanges(db, a);
    ApplyAllInv(db.books, ChangesOf(db, a));
  }

  lemma {:induction false} RunInv(db: Db, actions: seq<Action>)
    requires Inv(db.books)
    ensures Inv(Run(db, actions).books)
    decreases actions
  {
    if actions != [] {
      StepInv(db, actions[0]);
      RunInv(Step(db, actions[0]), actions[1..]);
    }
  }

  lemma ReachableInv(actions: seq<Action>)
    ensures Inv(Run(EMPTY_DB, actions).books)
  {
    EmptyInv();
    RunInv(EMPTY_DB, actions);
  }

  // ------------------------------------------------------------ main results

  /** Closed-form books. In every reachable committed state, for every Stripe reply, rejection,
      exception and crash, the four positions of every intent follow from its row and from the
      number of cancellations booked, and nothing is received or refunded unless it succeeded. */
  lemma BooksInClosedForm(actions: seq<Action>, i: nat)
    requires i < |Run(EMPTY_DB, actions).books.intents|
    ensures var b := Run(EMPTY_DB, actions).books;
            var x := b.intents[i];
            var c := Cancellations(b, i);
            && PositionOf(b, i, CAPTURED) == x.received - x.refunded
            && PositionOf(b, i, CustomerAccount(x.customer)) == x.refunded
            && PositionOf(b, i, AUTHORISED) == x.amount - c * x.amount - x.received
            && PositionOf(b, i, PendingAccount(x.customer)) == c * x.amount - x.amount
            && 0 <= x.refunded <= x.received && c >= 0
            && (x.status != Succeeded ==> x.received == x.refunded == 0)
  {
    ReachableInv(actions);
    assert IntentOk(Run(EMPTY_DB, actions).books, i);
  }

  /** Exactly-once capture: over every run, with duplicate, failed and interrupted deliveries, an
      intent has one capture booking if it has received money and none otherwise. */
  lemma CapturedAtMostOnce(actions: seq<Action>, i: nat)
    requires i < |Run(EMPTY_DB, actions).books.intents|
    ensures var b := Run(EMPTY_DB, actions).books;
            Captures(b, i) == if b.intents[i].received > 0 then 1 else 0
  {
    ReachableInv(actions);
    assert IntentOk(Run(EMPTY_DB, actions).books, i);
  }

  /** One row per idempotency key and per Stripe id, and one creation booked for each. */
  lemma OneIntentPerKey(actions: seq<Action>, i: nat, j: nat)
    requires i < |Run(EMPTY_DB, actions).books.intents| && j < |Run(EMPTY_DB, actions).books.intents|
    ensures var b := Run(EMPTY_DB, actions).books;
            && (b.intents[i].key == b.intents[j].key || b.intents[i].stripeId == b.intents[j].stripeId ==> i == j)
            && Sum(b.ledger, Bookings(i, CREATION)) == 1
  {
    ReachableInv(actions);
    assert IntentOk(Run(EMPTY_DB, actions).books, i);
  }

  /** The gateway's own ledger nets to zero at every scope in every reachable state. */
  lemma GatewayLedgerIsZeroSum(actions: seq<Action>, scope: Scope)
    ensures Sum(Run(EMPTY_DB, actions).books.ledger, InScope(scope)) == 0
  {
    ReachableInv(actions);
    RecordedScope(Run(EMPTY_DB, actions).books.ledger, scope);
  }
}
