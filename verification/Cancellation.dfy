/** Cancellations: when a reversal is booked once, and how CANCELED is left. */
module Cancellation {
  import opened Common
  import opened Ledger
  import opened Books
  import opened Operations
  import opened Runs
  import opened Lifecycle
  import opened Webhooks

  ghost predicate CancelledOnce(b: Books) {
    forall i :: 0 <= i < |b.intents| ==> Cancellations(b, i) == if b.intents[i].status == Canceled then 1 else 0
  }

  ghost predicate DisciplinedChange(b: Books, c: Change) {
    match c
    case RowAdded(x, _) => x.status != Canceled
    case StatusSet(_, status) => status != Canceled
    case Reversal(_, status) => status == Canceled
    case Capture(i, _) => i < |b.intents| && b.intents[i].status != Canceled
    case _ => true
  }

  /** A booking for one intent counts as a cancellation of that intent if it is one, and of no other. */
  lemma CountAfter(b: Books, after: Books, i: nat, debit: string, credit: string, amount: int, currency: string,
                   kind: string)
    requires after.ledger == Transfer(b.ledger, i, debit, credit, amount, currency, kind)
    ensures forall j: nat ::
              Cancellations(after, j) == Cancellations(b, j) + (if i == j && kind == CANCELLATION then 1 else 0)
  {
    forall j: nat
      ensures Cancellations(after, j) == Cancellations(b, j) + (if i == j && kind == CANCELLATION then 1 else 0) {
      TransferBookings(b.ledger, i, debit, credit, amount, currency, kind, j, CANCELLATION);
    }
  }

  lemma ChangeKeepsCount(b: Books, c: Change)
    requires Inv(b) && CancelledOnce(b) && Sound(b, c) && DisciplinedChange(b, c)
    ensures CancelledOnce(Apply(b, c))
  {
    var after := Apply(b, c);
    KindsDiffer("");
    match c
    case RowAdded(x, currency) =>
      NothingAbove(b, |b.intents|);
      CountAfter(b, after, |b.intents|, PendingAccount(x.customer), AUTHORISED, x.amount, currency, CREATION);
    case Reversal(i, status) =>
      var x := b.intents[i];
      CountAfter(b, after, i, AUTHORISED, PendingAccount(x.customer), x.amount, x.currency, CANCELLATION);
    case Capture(i, amount) =>
      CountAfter(b, after, i, AUTHORISED, CAPTURED, amount, b.intents[i].currency, CAPTURE);
    case Repayment(i, amount, refundId) =>
      KindsDiffer(refundId);
      CountAfter(b, after, i, CAPTURED, CustomerAccount(b.intents[i].customer), amount, b.intents[i].currency,
                 RefundKind(refundId));
    case _ =>
      assert forall j: nat :: Cancellations(after, j) == Cancellations(b, j);
  }

  ghost predicate DisciplinedChanges(b: Books, cs: seq<Change>)
    decreases cs
  {
    cs == [] || (DisciplinedChange(b, cs[0]) && DisciplinedChanges(Apply(b, cs[0]), cs[1..]))
  }

  lemma {:induction false} ChangesKeepCount(b: Books, cs: seq<Change>)
    requires Inv(b) && CancelledOnce(b) && SoundAll(b, cs) && DisciplinedChanges(b, cs)
    ensures CancelledOnce(ApplyAll(b, cs))
    decreases cs
  {
    if cs != [] {
      ChangeKeepsCount(b, cs[0]);
      ApplyInv(b, cs[0]);
      ChangesKeepCount(Apply(b, cs[0]), cs[1..]);
    }
  }

  // -------------------------------------------------------------------- steps

  /** A delivery captures a row: it gets through, its event is a new success with money for the row's
      intent, and the row has not succeeded. */
  predicate CapturesAt(db: Db, a: Action, i: nat) {
    && a.Webhook? && Effective(a.delivery) && !Processed(db, a.delivery.event.id)
    && a.delivery.event.kind == SUCCEEDED_EVENT && EventAmount(a.delivery.event.obj).Some?
    && EventAmount(a.delivery.event.obj).value > 0
    && i < |db.books.intents| && a.delivery.event.obj.id.Some?
    && db.books.intents[i].stripeId == a.delivery.event.obj.id
    && db.books.intents[i].status != Succeeded
  }

  /** The status Stripe replies, where the reply reaches a row. */
  function ReachingStatus(db: Db, a: Action): Option<Status> {
    if !ReplyReachesRow(db, a) || !a.reply.Reply? then None else ParseStatus(a.reply.status)
  }

  /** A step at which replies and cancellations part: `canceled` without having been asked to cancel,
      another status after a cancel, or a capture of a cancelled intent. */
  ghost predicate Undisciplined(db: Db, a: Action) {
    || ((a.Create? || a.OpenSession? || a.Confirm?) && ReachingStatus(db, a) == Some(Canceled))
    || (a.Cancel? && ReachingStatus(db, a).Some? && ReachingStatus(db, a) != Some(Canceled))
    || (exists i :: 0 <= i < |db.books.intents| && CapturesAt(db, a, i) && db.books.intents[i].status == Canceled)
  }

  ghost predicate DisciplinedRun(db: Db, actions: seq<Action>)
    decreases actions
  {
    actions == [] || (!Undisciplined(db, actions[0]) && DisciplinedRun(Step(db, actions[0]), actions[1..]))
  }

  /** A row added by a create comes with the status of a reply that reached it. */
  lemma AddedByReply(db: Db, req: CreateRequest, owner: Option<string>, reply: Reply, now: Time, commits: nat)
    requires CreateChanges(db, req, owner, reply, now, commits) != []
    ensures NewRowFor(db, req, reply) && commits > 0 && reply.Reply? && ParseStatus(reply.status).Some?
  {
    assert forall i :: 0 <= i < |db.books.intents| ==>
           !KeyIs(req.key)(db.books.intents[i]) && !StripeIdIs(reply.id)(db.books.intents[i]);
  }

  lemma FirstIsDisciplined(db: Db, a: Action)
    requires Inv(db.books) && !Undisciplined(db, a) && ChangesOf(db, a) != []
    ensures DisciplinedChange(db.books, ChangesOf(db, a)[0])
  {
    match a
    case Create(req, owner, reply, now, commits) => AddedByReply(db, req, owner, reply, now, commits);
    case OpenSession(req, merchant, reply, now, commits) =>
      if CreateChanges(db, IntentRequest(req), Some(merchant), reply, now, commits) != [] {
        AddedByReply(db, IntentRequest(req), Some(merchant), reply, now, commits);
      }
    case Webhook(d) => CapturedIsDisciplined(db, d);
    case _ =>
  }

  lemma CapturedIsDisciplined(db: Db, d: Delivery)
    requires Inv(db.books) && !Undisciplined(db, Webhook(d)) && ChangesOf(db, Webhook(d)) != []
    ensures DisciplinedChange(db.books, ChangesOf(db, Webhook(d))[0])
  {
    var i := One(db.books.intents, StripeIdIs(d.event.obj.id.value)).row;
    DeliverBooks(db, d);
    assert StripeIdIs(d.event.obj.id.value)(db.books.intents[i]);
    if db.books.intents[i].status != Succeeded {
      assert CapturesAt(db, Webhook(d), i);
    }
  }

  /** Only the first change of an action can break the discipline: the second is about a session. */
  lemma DisciplineOfChanges(db: Db, a: Action)
    requires Inv(db.books) && !Undisciplined(db, a)
    ensures DisciplinedChanges(db.books, ChangesOf(db, a))
  {
    var cs := ChangesOf(db, a);
    ShapeOfChanges(db, a);
    if cs != [] {
      FirstIsDisciplined(db, a);
      var rest := cs[1..];
      assert rest != [] ==> rest[1..] == [] && DisciplinedChange(Apply(db.books, cs[0]), rest[0]);
    }
  }

  // ------------------------------------------------------- undisciplined steps

  lemma UndisciplinedCreate(db: Db, req: CreateRequest, owner: Option<string>, reply: Reply, now: Time, commits: nat)
    requires Inv(db.books) && NewRowFor(db, req, reply) && commits > 0 && ParseStatus(reply.status) == Some(Canceled)
    ensures !CancelledOnce(CreateIntent(db, req, owner, reply, now, commits).0.books)
  {
    var b, after := db.books, CreateIntent(db, req, owner, reply, now, commits).0.books;
    NewRowIsCreated(db, req, owner, reply, now, commits);
    NothingAbove(b, |b.intents|);
    KindsDiffer("");
    CreateIsItsChanges(db, req, owner, reply, now, commits);
    assert after == AddIntent(b, after.intents[|b.intents|], req.currency);
    CountAfter(b, after, |b.intents|, PendingAccount(req.customer), AUTHORISED, req.amount, req.currency, CREATION);
    assert Cancellations(after, |b.intents|) == 0;
  }

  lemma UndisciplinedCapture(db: Db, d: Delivery, i: nat)
    requires Inv(db.books) && CancelledOnce(db.books)
    requires CapturesAt(db, Webhook(d), i) && db.books.intents[i].status == Canceled
    ensures !CancelledOnce(Deliver(db, d).0.books)
  {
    var b, e := db.books, d.event;
    DeliverBooks(db, d);
    CaptureDispatches(b, e, i);
    IntentLookup(b, i, e.obj.id.value);
    var after, amount := BooksAfter(b, e), EventAmount(e.obj).value;
    KindsDiffer("");
    assert after.ledger == BookCapture(b, i, amount).ledger;
    CountAfter(b, after, i, AUTHORISED, CAPTURED, amount, b.intents[i].currency, CAPTURE);
    assert Cancellations(after, i) == 1;
  }

  lemma UndisciplinedReply(db: Db, a: Action)
    requires Inv(db.books) && CancelledOnce(db.books) && Undisciplined(db, a) && (a.Confirm? || a.Cancel?)
    ensures !CancelledOnce(Step(db, a).books)
  {
    var i, b, after := a.intent, db.books, Step(db, a).books;
    assert IntentOk(b, i);
    if a.Cancel? {
      BookCancelInv(b, i, ParseStatus(a.reply.status).value);
    } else {
      assert Cancellations(after, i) == Cancellations(b, i);
    }
    assert Cancellations(after, i) != (if after.intents[i].status == Canceled then 1 else 0);
  }

  lemma UndisciplinedBreaks(db: Db, a: Action)
    requires Inv(db.books) && CancelledOnce(db.books) && Undisciplined(db, a)
    ensures !CancelledOnce(Step(db, a).books)
  {
    match a
    case Create(req, owner, reply, now, commits) => UndisciplinedCreate(db, req, owner, reply, now, commits);
    case OpenSession(req, merchant, reply, now, commits) =>
      UndisciplinedCreate(db, IntentRequest(req), Some(merchant), reply, now, commits);
      SessionKeepsIntents(db, req, merchant, reply, now, commits);
      SameCounts(Step(db, a).books, CreateIntent(db, IntentRequest(req), Some(merchant), reply, now, commits).0.books);
    case Webhook(d) =>
      var i :| 0 <= i < |db.books.intents| && CapturesAt(db, a, i) && db.books.intents[i].status == Canceled;
      UndisciplinedCapture(db, d, i);
    case _ => UndisciplinedReply(db, a);
  }

  lemma SameCounts(b: Books, b': Books)
    requires b.intents == b'.intents && b.ledger == b'.ledger
    ensures CancelledOnce(b) <==> CancelledOnce(b')
  {
    assert forall i: nat :: Cancellations(b, i) == Cancellations(b', i);
  }

  // ------------------------------------------------------------- main results

  /** A step from books in which an intent has one cancellation booked exactly when it is CANCELED
      keeps them so if and only if it is disciplined. */
  lemma StepKeepsCount(db: Db, a: Action)
    requires Inv(db.books) && CancelledOnce(db.books)
    ensures CancelledOnce(Step(db, a).books) <==> !Undisciplined(db, a)
  {
    if Undisciplined(db, a) {
      UndisciplinedBreaks(db, a);
    } else {
      StepIsItsChanges(db, a);
      DisciplineOfChanges(db, a);
      ChangesKeepCount(db.books, ChangesOf(db, a));
    }
  }

  /** In every state the run goes through. */
  ghost predicate AlwaysCancelledOnce(db: Db, actions: seq<Action>)
    decreases actions
  {
    CancelledOnce(db.books) && (actions == [] || AlwaysCancelledOnce(Step(db, actions[0]), actions[1..]))
  }

  /** In every state of a run an intent has one cancellation booked exactly when it is CANCELED, if and
      only if every step of the run is disciplined. */
  lemma {:induction false} CancelledOnceIffDisciplined(db: Db, actions: seq<Action>)
    requires Inv(db.books) && CancelledOnce(db.books)
    ensures AlwaysCancelledOnce(db, actions) <==> DisciplinedRun(db, actions)
    decreases actions
  {
    if actions != [] {
      StepKeepsCount(db, actions[0]);
      if !Undisciplined(db, actions[0]) {
        StepInv(db, actions[0]);
        CancelledOnceIffDisciplined(Step(db, actions[0]), actions[1..]);
      }
    }
  }

  lemma {:induction false} RunKeepsCount(db: Db, actions: seq<Action>)
    requires Inv(db.books) && CancelledOnce(db.books) && DisciplinedRun(db, actions)
    ensures CancelledOnce(Run(db, actions).books)
    decreases actions
  {
    if actions != [] {
      StepKeepsCount(db, actions[0]);
      StepInv(db, actions[0]);
      RunKeepsCount(Step(db, actions[0]), actions[1..]);
    }
  }

  /** CANCELED is left by a capture, and by nothing else. */
  lemma CanceledIsLeftByCapture(db: Db, a: Action, i: nat)
    requires Inv(db.books) && i < |db.books.intents| && db.books.intents[i].status == Canceled
    ensures i < |Step(db, a).books.intents|
    ensures Step(db, a).books.intents[i].status != Canceled <==> CapturesAt(db, a, i)
  {
    StepAdvances(db, a, i);
    if CapturesAt(db, a, i) {
      DeliverBooks(db, a.delivery);
      CaptureDispatches(db.books, a.delivery.event, i);
    } else {
      StepIsItsChanges(db, a);
      OnlyCapturesLeave(db, a, i);
      ChangesKeepCanceled(db.books, ChangesOf(db, a), i);
    }
  }

  lemma OnlyCapturesLeave(db: Db, a: Action, i: nat)
    requires Inv(db.books) && i < |db.books.intents| && !CapturesAt(db, a, i)
    ensures forall c :: c in ChangesOf(db, a) ==> !(c.Capture? && c.intent == i)
  {
    if a.Webhook? && ChangesOf(db, a) != [] {
      DeliverBooks(db, a.delivery);
      var j := One(db.books.intents, StripeIdIs(a.delivery.event.obj.id.value)).row;
      assert StripeIdIs(a.delivery.event.obj.id.value)(db.books.intents[j]);
    }
  }

  lemma {:induction false} ChangesKeepCanceled(b: Books, cs: seq<Change>, i: nat)
    requires SoundAll(b, cs) && i < |b.intents| && b.intents[i].status == Canceled
    requires forall c :: c in cs ==> !(c.Capture? && c.intent == i)
    ensures i < |ApplyAll(b, cs).intents| && ApplyAll(b, cs).intents[i].status == Canceled
    decreases cs
  {
    if cs != [] {
      assert cs[0] in cs;
      ChangesKeepCanceled(Apply(b, cs[0]), cs[1..], i);
    }
  }

  /** In a disciplined run an intent has one cancellation booked exactly when it is CANCELED. Then
      both authorisation accounts are back at zero; otherwise what is authorised is what is not
      yet received. */
  lemma CancellationClearsAuthorisation(actions: seq<Action>, i: nat)
    requires DisciplinedRun(EMPTY_DB, actions) && i < |Run(EMPTY_DB, actions).books.intents|
    ensures var b := Run(EMPTY_DB, actions).books;
            var x := b.intents[i];
            && Cancellations(b, i) == (if x.status == Canceled then 1 else 0)
            && PositionOf(b, i, AUTHORISED) == (if x.status == Canceled then 0 else x.amount - x.received)
            && PositionOf(b, i, PendingAccount(x.customer)) == (if x.status == Canceled then 0 else -x.amount)
  {
    EmptyInv();
    RunKeepsCount(EMPTY_DB, actions);
    ReachableInv(actions);
    assert IntentOk(Run(EMPTY_DB, actions).books, i);
  }

  /** Without that discipline it is false: after a booked cancellation a second cancel request is
      booked again exactly when the first reply was neither `canceled` nor `succeeded`. */
  lemma CancelBooksTwice(db: Db, i: nat, first: Reply, second: Reply, now: Time)
    requires Inv(db.books) && i < |db.books.intents| && first.Reply? && second.Reply?
    requires ParseStatus(second.status).Some?
    requires Step(db, Cancel(i, first, now, 1)).books != db.books
    ensures var once := Step(db, Cancel(i, first, now, 1));
            var twice := Step(once, Cancel(i, second, now, 1));
            && Cancellations(once.books, i) == Cancellations(db.books, i) + 1
            && Cancellations(twice.books, i) == Cancellations(db.books, i)
                 + (if ParseStatus(first.status).value in {Canceled, Succeeded} then 1 else 2)
  {
    var once := Step(db, Cancel(i, first, now, 1));
    BookCancelInv(db.books, i, ParseStatus(first.status).value);
    assert IntentOk(once.books, i);
    if ParseStatus(first.status).value !in {Canceled, Succeeded} {
      BookCancelInv(once.books, i, ParseStatus(second.status).value);
    }
  }
}
