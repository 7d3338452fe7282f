/** The services as they run: an ORM session whose working rows are changed in place, and
    handlers that read, call Stripe, change rows and commit. Each handler is proved to take the
    committed database exactly where its function in `Operations` says. */
module Gateway {
  import opened Common
  import opened Ledger
  import opened Books
  import opened Operations

  lemma SaveNothing(db: Db, now: Time)
    requires |db.stamps| == |db.books.intents|
    ensures Save(db, db.books, now) == db
  {
    assert Save(db, db.books, now).stamps == db.stamps;
  }

  /** A database session. `working` is what the handler sees, `committed` what survives it, and
      `commits` how many commits go through before the process dies. */
  class Session {
    var committed: Db
    var working: Db
    var commits: nat

    /** Between requests nothing is pending, and every intent has its stamps. */
    ghost predicate Valid()
      reads this
    {
      working == committed && |committed.stamps| == |committed.books.intents|
    }

    constructor (commits: nat)
      ensures Valid() && committed == EMPTY_DB && this.commits == commits
    {
      committed, working, this.commits := EMPTY_DB, EMPTY_DB, commits;
    }

    /** Makes the working rows durable, unless the process dies first. */
    method Commit(now: Time) returns (alive: bool)
      requires |committed.stamps| == |committed.books.intents|
      modifies this
      ensures Valid() && alive == (old(commits) > 0)
      ensures alive ==> committed == Save(old(committed), old(working.books), now).(events := old(working.events))
      ensures alive ==> commits == old(commits) - 1
      ensures !alive ==> committed == old(committed) && commits == 0
    {
      alive := commits > 0;
      if alive {
        committed := Save(committed, working.books, now).(events := working.events);
        commits := commits - 1;
      }
      working := committed;
    }

    method Rollback()
      requires |committed.stamps| == |committed.books.intents|
      modifies this`working
      ensures Valid()
    {
      working := committed;
    }

    method SetIntent(i: nat, x: Intent)
      requires i < |working.books.intents|
      modifies this`working
      ensures working == old(working).(books := old(working.books).(intents := old(working.books.intents)[i := x]))
    {
      working := working.(books := working.books.(intents := working.books.intents[i := x]));
    }

    /** `record_transaction`: all legs are added or none, and what is added is what `Record` says. */
    method RecordTransaction(legs: seq<Leg>, currency: string, intent: Option<nat>, description: string,
                             txn: Option<string>)
      returns (r: Result<seq<Entry>, LedgerError>)
      modifies this`working
      ensures r == Record(old(working.books.ledger), Call(legs, currency, intent, description, txn))
      ensures working == if r.Err? then old(working)
                         else old(working).(books := old(working.books).(ledger := old(working.books.ledger) + r.value))
    {
      if |legs| < 2 {
        return Err(TooFewLegs);
      }
      var debits := Sum(legs, DebitAmount);
      var credits := Sum(legs, CreditAmount);
      if debits != credits {
        return Err(Unbalanced);
      }
      if exists i :: 0 <= i < |legs| && legs[i].amount <= 0 {
        return Err(NonPositiveLeg);
      }
      var id := if txn.Some? && txn.value != "" then Supplied(txn.value) else Generated(|working.books.ledger|);
      var entries := EntriesOf(legs, id, Lower(currency), intent, description);
      working := working.(books := working.books.(ledger := working.books.ledger + entries));
      return Ok(entries);
    }
  }

  // --------------------------------------------------------- payment intents

  method CreateIntent(s: Session, req: CreateRequest, merchant: Option<string>, reply: Reply, now: Time)
    returns (out: Outcome<nat>)
    requires s.Valid()
    modifies s
    ensures s.Valid()
    ensures (s.committed, out) == Operations.CreateIntent(old(s.committed), req, merchant, reply, now, old(s.commits))
    ensures s.commits == old(s.commits) - (if s.committed.books == old(s.committed.books) then 0 else 1)
  {
    var existing := One(s.working.books.intents, KeyIs(req.key));
    if existing.ManyRows? {
      return Raised(SeveralRows);
    }
    if existing.OneRow? {
      var x := s.working.books.intents[existing.row];
      if x.amount != req.amount || x.currency != Lower(req.currency) {
        return Raised(IdempotencyConflict);
      }
      return Done(existing.row);
    }
    if reply.StripeError? {
      return Raised(StripeFailed);
    }
    var status := ParseStatus(reply.status);
    if status.None? {
      return Raised(UnknownStatus);
    }
    if !One(s.working.books.intents, StripeIdIs(reply.id)).NoRow? {
      return Raised(DuplicateStripeId);
    }
    var i := |s.working.books.intents|;
    var x := NewIntent(req, merchant, reply.id, status.value);
    s.working := s.working.(books := s.working.books.(intents := s.working.books.intents + [x]));
    TransferRecords(s.working.books.ledger, i, PendingAccount(req.customer), AUTHORISED, req.amount, req.currency,
                    CREATION);
    var booked := s.RecordTransaction(
      [Leg(PendingAccount(req.customer), Debit, req.amount), Leg(AUTHORISED, Credit, req.amount)],
      req.currency, Some(i), CREATION, None);
    if booked.Err? {
      s.Rollback();
      return Raised(LedgerRefused);
    }
    assert s.working.books == AddIntent(old(s.committed.books), x, req.currency);
    var alive := s.Commit(now);
    if !alive {
      return Died;
    }
    assert |s.committed.books.intents| == i + 1;
    return Done(i);
  }

  method ConfirmIntent(s: Session, i: nat, reply: Reply, now: Time) returns (out: Outcome<nat>)
    requires s.Valid()
    modifies s
    ensures s.Valid()
    ensures (s.committed, out) == Operations.ConfirmIntent(old(s.committed), i, reply, now, old(s.commits))
  {
    if i >= |s.working.books.intents| {
      return Raised(NotFound);
    }
    var x := s.working.books.intents[i];
    if x.status in {Succeeded, Canceled, Failed} {
      return Done(i);
    }
    if !x.HasStripeId() {
      return Raised(InvalidState);
    }
    if reply.StripeError? {
      return Raised(StripeFailed);
    }
    var status := ParseStatus(reply.status);
    if status.None? {
      return Raised(UnknownStatus);
    }
    s.SetIntent(i, x.(status := status.value));
    var alive := s.Commit(now);
    if !alive {
      return Died;
    }
    return Done(i);
  }

  method CancelIntent(s: Session, i: nat, reply: Reply, now: Time) returns (out: Outcome<nat>)
    requires s.Valid()
    modifies s
    ensures s.Valid()
    ensures (s.committed, out) == Operations.CancelIntent(old(s.committed), i, reply, now, old(s.commits))
  {
    if i >= |s.working.books.intents| {
      return Raised(NotFound);
    }
    var x := s.working.books.intents[i];
    if x.status == Canceled {
      return Done(i);
    }
    if x.status == Succeeded || !x.HasStripeId() {
      return Raised(InvalidState);
    }
    if reply.StripeError? {
      return Raised(StripeFailed);
    }
    var status := ParseStatus(reply.status);
    if status.None? {
      return Raised(UnknownStatus);
    }
    s.SetIntent(i, x.(status := status.value));
    TransferRecords(s.working.books.ledger, i, AUTHORISED, PendingAccount(x.customer), x.amount, x.currency,
                    CANCELLATION);
    var booked := s.RecordTransaction(
      [Leg(AUTHORISED, Debit, x.amount), Leg(PendingAccount(x.customer), Credit, x.amount)],
      x.currency, Some(i), CANCELLATION, None);
    if booked.Err? {
      s.Rollback();
      return Raised(LedgerRefused);
    }
    var alive := s.Commit(now);
    if !alive {
      return Died;
    }
    return Done(i);
  }

  method RefundIntent(s: Session, i: nat, amount: Option<int>, reply: Reply, now: Time) returns (out: Outcome<nat>)
    requires s.Valid()
    modifies s
    ensures s.Valid()
    ensures (s.committed, out) == Operations.RefundIntent(old(s.committed), i, amount, reply, now, old(s.commits))
  {
    if i >= |s.working.books.intents| {
      return Raised(NotFound);
    }
    var x := s.working.books.intents[i];
    if x.status != Succeeded || !x.HasStripeId() {
      return Raised(NotRefundable);
    }
    var refundable := x.received - x.refunded;
    if refundable <= 0 {
      return Raised(InvalidAmount);
    }
    var n := if amount.Some? then amount.value else refundable;
    if n <= 0 || n > refundable {
      return Raised(InvalidAmount);
    }
    if reply.StripeError? {
      return Raised(RefundFailed);
    }
    s.SetIntent(i, x.(refunded := x.refunded + n));
    TransferRecords(s.working.books.ledger, i, CAPTURED, CustomerAccount(x.customer), n, x.currency,
                    RefundKind(reply.id));
    var _ := s.RecordTransaction(
      [Leg(CAPTURED, Debit, n), Leg(CustomerAccount(x.customer), Credit, n)],
      x.currency, Some(i), RefundKind(reply.id), None);
    var alive := s.Commit(now);
    if !alive {
      return Died;
    }
    return Done(i);
  }

  // ------------------------------------------------------- checkout sessions

  method CreateSession(s: Session, req: SessionRequest, merchant: string, reply: Reply, now: Time)
    returns (out: Outcome<nat>)
    requires s.Valid()
    modifies s
    ensures s.Valid()
    ensures (s.committed, out) == Operations.CreateSession(old(s.committed), req, merchant, reply, now, old(s.commits))
  {
    var created := CreateIntent(s, IntentRequest(req), Some(merchant), reply, now);
    if !created.Done? {
      return created;
    }
    var existing := One(s.working.books.sessions, SessionOf(created.value));
    if existing.ManyRows? {
      return Raised(SeveralRows);
    }
    if existing.OneRow? {
      return Done(existing.row);
    }
    var cs := |s.working.books.sessions|;
    s.working := s.working.(books := AddSession(s.working.books, NewSession(req, merchant, created.value, now)));
    var alive := s.Commit(now);
    if !alive {
      return Died;
    }
    return Done(cs);
  }

  method GetOpenSession(s: Session, cs: nat, now: Time) returns (out: Outcome<nat>)
    requires s.Valid()
    modifies s
    ensures s.Valid()
    ensures (s.committed, out) == Operations.GetOpenSession(old(s.committed), cs, now, old(s.commits))
  {
    if cs >= |s.working.books.sessions| {
      return Raised(NotFound);
    }
    var row := s.working.books.sessions[cs];
    if row.status == Open && row.expiresAt < now {
      s.working := s.working.(books := SetSession(s.working.books, cs, Expired));
      var alive := s.Commit(now);
      if !alive {
        return Died;
      }
    }
    return Done(cs);
  }

  // --------------------------------------------------------------- webhooks

  /** `apply_succeeded_event`. The working rows change, nothing is committed. */
  method ApplySucceededEvent(s: Session, stripeId: string, amount: int) returns (out: Outcome<Option<nat>>)
    modifies s`working
    ensures var found := One(old(s.working.books.intents), StripeIdIs(stripeId));
            match found
            case ManyRows => out == Raised(SeveralRows)
            case NoRow => out == Done(None) && s.working == old(s.working)
            case OneRow(i) =>
              var applied := ApplySucceeded(old(s.working.books), i, amount);
              if applied.None? then out == Raised(LedgerRefused)
              else out == Done(Some(i)) && s.working == old(s.working).(books := applied.value)
  {
    var found := One(s.working.books.intents, StripeIdIs(stripeId));
    if found.ManyRows? {
      return Raised(SeveralRows);
    }
    if found.NoRow? {
      return Done(None);
    }
    var x := s.working.books.intents[found.row];
    if x.status == Succeeded {
      return Done(Some(found.row));
    }
    s.SetIntent(found.row, x.(status := Succeeded, received := amount));
    TransferRecords(s.working.books.ledger, found.row, AUTHORISED, CAPTURED, amount, x.currency, CAPTURE);
    var booked := s.RecordTransaction(
      [Leg(AUTHORISED, Debit, amount), Leg(CAPTURED, Credit, amount)], x.currency, Some(found.row), CAPTURE, None);
    if booked.Err? {
      return Raised(LedgerRefused);
    }
    return Done(Some(found.row));
  }

  /** `complete_session`, which commits everything pending when it changes the session. */
  method CompleteSession(s: Session, cs: nat, now: Time) returns (alive: bool)
    requires cs < |s.working.books.sessions|
    requires |s.committed.stamps| == |s.committed.books.intents|
    modifies s
    ensures |s.committed.stamps| == |s.committed.books.intents|
    ensures old(s.working.books.sessions)[cs].status == Completed ==>
              alive && s.committed == old(s.committed) && s.working == old(s.working) && s.commits == old(s.commits)
    ensures old(s.working.books.sessions)[cs].status != Completed ==>
              && s.Valid() && alive == (old(s.commits) > 0)
              && s.commits == (if alive then old(s.commits) - 1 else 0)
              && s.committed == if alive
                 then
                   Save(old(s.committed), SetSession(old(s.working.books), cs, Completed), now)
                     .(events := old(s.working.events))
                 else old(s.committed)
  {
    alive := true;
    if s.working.books.sessions[cs].status != Completed {
      s.working := s.working.(books := SetSession(s.working.books, cs, Completed));
      alive := s.Commit(now);
    }
  }

  /** The `except` branch of the handler, after the exception. */
  method HandleFailure(s: Session, id: string, now: Time) returns (out: Outcome<Receipt>)
    requires |s.committed.stamps| == |s.committed.books.intents|
    modifies s
    ensures s.Valid()
    ensures s.committed == NoteError(old(s.committed), id, old(s.commits))
    ensures out == if id in old(s.committed.events) && old(s.commits) == 0 then Died else Raised(HandlerFailed)
  {
    s.Rollback();
    if id in s.working.events {
      SaveNothing(s.committed, now);
      s.working := s.working.(events := s.working.events[id := s.working.events[id].(error := true)]);
      var alive := s.Commit(now);
      if !alive {
        return Died;
      }
    }
    return Raised(HandlerFailed);
  }

  datatype Progress = Finished(midway: bool) | Threw | Dead

  /** `_dispatch`. It leaves its changes pending unless it completes a session, which commits. */
  method DispatchEvent(s: Session, e: Event, now: Time) returns (p: Progress)
    requires |s.committed.stamps| == |s.committed.books.intents|
    modifies s
    ensures |s.committed.stamps| == |s.committed.books.intents|
    ensures var result := Dispatch(old(s.working.books), e);
            if result.Refused? then p == Threw && s.committed == old(s.committed) && s.commits == old(s.commits)
            else if !result.commits then
              && p == Finished(false) && s.committed == old(s.committed) && s.commits == old(s.commits)
              && s.working == old(s.working).(books := result.books)
            else if old(s.commits) == 0 then p == Dead && s.Valid() && s.committed == old(s.committed)
            else
              && p == Finished(true) && s.Valid() && s.commits == old(s.commits) - 1
              && s.committed == Save(old(s.committed), result.books, now).(events := old(s.working.events))
  {
    if e.kind != SUCCEEDED_EVENT {
      return Finished(false);
    }
    var amount := EventAmount(e.obj);
    if e.obj.id.None? || amount.None? {
      return Threw;
    }
    var applied := ApplySucceededEvent(s, e.obj.id.value, amount.value);
    if !applied.Done? {
      return Threw;
    }
    if applied.value.None? {
      return Finished(false);
    }
    var cs := One(s.working.books.sessions, SessionOf(applied.value.value));
    if cs.ManyRows? {
      return Threw;
    }
    if cs.NoRow? {
      return Finished(false);
    }
    var changed := s.working.books.sessions[cs.row].status != Completed;
    var alive := CompleteSession(s, cs.row, now);
    if !alive {
      return Dead;
    }
    return Finished(changed);
  }

  method StripeWebhook(s: Session, d: Delivery) returns (out: Outcome<Receipt>)
    requires s.Valid() && s.commits == d.commits
    modifies s
    ensures s.Valid()
    ensures (s.committed, out) == Deliver(old(s.committed), d)
  {
    ghost var before := s.committed;
    var e := d.event;
    if e.id in s.working.events && s.working.events[e.id].processedAt.Some? {
      return Done(Duplicate);
    }
    if e.id !in s.working.events {
      s.working := s.working.(events := s.working.events[e.id := EventRow(e, None, false)]);
    }
    assert s.working.events == before.events[e.id := RowFor(before, e)];
    if d.glitch == EarlyGlitch {
      out := HandleFailure(s, e.id, d.now);
      return;
    }
    var p := DispatchEvent(s, e, d.now);
    if p.Dead? {
      return Died;
    }
    if p.Threw? || (p.midway && d.glitch == LateGlitch) {
      out := HandleFailure(s, e.id, d.now);
      return;
    }
    if p.midway {
      SaveNothing(s.committed, d.now);
    }
    s.working := s.working.(events := s.working.events[e.id := s.working.events[e.id].(processedAt := Some(d.now))]);
    assert s.working.events == before.events[e.id := RowFor(before, e).(processedAt := Some(d.now))];
    var alive := s.Commit(d.now);
    if !alive {
      return Died;
    }
    return Done(Received);
  }
}
