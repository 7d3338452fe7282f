/** What each request does to the database, as functions from the committed state before to the
    committed state after, and the runs they make up.

    A request ends early in two ways. It raises, and its uncommitted work is rolled back; or the
    process dies, which is described by `commits`, the number of commits that go through before it
    does. Dying anywhere between two commits has the same durable effect. */
module Operations {
  import opened Common
  import opened Ledger
  import opened Books

  type Time = int

  const SESSION_TTL: Time := 86400

  datatype Stamp = Stamp(created: Time, updated: Time)

  /** A number in a JSON object: the key may be missing, or its value null. */
  datatype Field = Absent | Null | Number(value: int)

  datatype EventObject = EventObject(id: Option<string>, amount: Field, amountReceived: Field)

  /** A verified webhook event: its id, its type and `data.object`. */
  datatype Event = Event(id: string, kind: string, obj: EventObject)

  /** A row of `webhook_events`. `error` says whether `processing_error` has been written. */
  datatype EventRow = EventRow(payload: Event, processedAt: Option<Time>, error: bool)

  /** A database snapshot. `stamps` holds the created_at and updated_at of every intent. */
  datatype Db = Db(books: Books, stamps: seq<Stamp>, events: map<string, EventRow>)

  const EMPTY_DB := Db(EMPTY_BOOKS, [], map[])

  /** Writing new books: rows that are new get both stamps, rows that changed get a new updated_at. */
  function Save(db: Db, b: Books, now: Time): Db {
    Db(b,
       seq(|b.intents|, i requires 0 <= i < |b.intents| =>
         if i < |db.books.intents| && i < |db.stamps| then
           if b.intents[i] == db.books.intents[i] then db.stamps[i] else db.stamps[i].(updated := now)
         else Stamp(now, now)),
       db.events)
  }

  datatype Failure = NotFound | IdempotencyConflict | InvalidState | NotRefundable | InvalidAmount
                   | StripeFailed | RefundFailed | UnknownStatus | DuplicateStripeId | LedgerRefused
                   | SeveralRows | HandlerFailed

  datatype Outcome<+T> = Done(value: T) | Raised(failure: Failure) | Died

  /** What Stripe answers: an object with an id and a status, or an error. */
  datatype Reply = Reply(id: string, status: string) | StripeError

  // ----------------------------------------------------------------- queries

  function KeyIs(key: string): Intent -> bool {
    (x: Intent) => x.key == key
  }

  function StripeIdIs(id: string): Intent -> bool {
    (x: Intent) => x.stripeId == Some(id)
  }

  function SessionOf(i: nat): Checkout -> bool {
    (s: Checkout) => s.intent == Some(i)
  }

  // ------------------------------------------------------------ create_intent

  datatype CreateRequest = CreateRequest(amount: int, currency: string, key: string, customer: Option<string>)

  function NewIntent(req: CreateRequest, merchant: Option<string>, stripeId: string, status: Status): Intent {
    Intent(Some(stripeId), req.key, req.amount, Lower(req.currency), 0, 0, status, merchant, req.customer)
  }

  predicate Matches(x: Intent, req: CreateRequest) {
    x.amount == req.amount && x.currency == Lower(req.currency)
  }

  function CreateIntent(db: Db, req: CreateRequest, merchant: Option<string>, reply: Reply, now: Time, commits: nat):
      (Db, Outcome<nat>)
  {
    match One(db.books.intents, KeyIs(req.key))
    case ManyRows => (db, Raised(SeveralRows))
    case OneRow(i) =>
      if Matches(db.books.intents[i], req) then (db, Done(i)) else (db, Raised(IdempotencyConflict))
    case NoRow =>
      if reply.StripeError? then (db, Raised(StripeFailed))
      else if ParseStatus(reply.status).None? then (db, Raised(UnknownStatus))
      else if !One(db.books.intents, StripeIdIs(reply.id)).NoRow? then (db, Raised(DuplicateStripeId))
      else if req.amount <= 0 then (db, Raised(LedgerRefused))
      else if commits == 0 then (db, Died)
      else
        var x := NewIntent(req, merchant, reply.id, ParseStatus(reply.status).value);
        (Save(db, AddIntent(db.books, x, req.currency), now), Done(|db.books.intents|))
  }

  // ----------------------------------------------------------- confirm_intent

  function ConfirmIntent(db: Db, i: nat, reply: Reply, now: Time, commits: nat): (Db, Outcome<nat>) {
    if i >= |db.books.intents| then (db, Raised(NotFound))
    else
      var x := db.books.intents[i];
      if x.status in {Succeeded, Canceled, Failed} then (db, Done(i))
      else if !x.HasStripeId() then (db, Raised(InvalidState))
      else if reply.StripeError? then (db, Raised(StripeFailed))
      else if ParseStatus(reply.status).None? then (db, Raised(UnknownStatus))
      else if commits == 0 then (db, Died)
      else (Save(db, SetStatus(db.books, i, ParseStatus(reply.status).value), now), Done(i))
  }

  // ------------------------------------------------------------ cancel_intent

  function CancelIntent(db: Db, i: nat, reply: Reply, now: Time, commits: nat): (Db, Outcome<nat>) {
    if i >= |db.books.intents| then (db, Raised(NotFound))
    else
      var x := db.books.intents[i];
      if x.status == Canceled then (db, Done(i))
      else if x.status == Succeeded then (db, Raised(InvalidState))
      else if !x.HasStripeId() then (db, Raised(InvalidState))
      else if reply.StripeError? then (db, Raised(StripeFailed))
      else if ParseStatus(reply.status).None? then (db, Raised(UnknownStatus))
      else if x.amount <= 0 then (db, Raised(LedgerRefused))
      else if commits == 0 then (db, Died)
      else (Save(db, BookCancel(db.books, i, ParseStatus(reply.status).value), now), Done(i))
  }

  // ------------------------------------------------------------ refund_intent

  /** The amount a refund request stands for: the one given, or everything that is left. */
  function RefundAmount(x: Intent, amount: Option<int>): int {
    if amount.Some? then amount.value else x.Refundable()
  }

  /** The checks a refund passes before Stripe is called. */
  function RefundCheck(b: Books, i: nat, amount: Option<int>): Option<Failure> {
    if i >= |b.intents| then Some(NotFound)
    else
      var x := b.intents[i];
      if x.status != Succeeded || !x.HasStripeId() then Some(NotRefundable)
      else if x.Refundable() <= 0 then Some(InvalidAmount)
      else if RefundAmount(x, amount) <= 0 || RefundAmount(x, amount) > x.Refundable() then Some(InvalidAmount)
      else None
  }

  function RefundIntent(db: Db, i: nat, amount: Option<int>, reply: Reply, now: Time, commits: nat):
      (Db, Outcome<nat>)
  {
    var check := RefundCheck(db.books, i, amount);
    if check.Some? then (db, Raised(check.value))
    else if reply.StripeError? then (db, Raised(RefundFailed))
    else if commits == 0 then (db, Died)
    else (Save(db, BookRefund(db.books, i, RefundAmount(db.books.intents[i], amount), reply.id), now), Done(i))
  }

  // -------------------------------------------------------- checkout sessions

  datatype SessionRequest = SessionRequest(amount: int, currency: string, key: string)

  function IntentRequest(req: SessionRequest): CreateRequest {
    CreateRequest(req.amount, req.currency, req.key, None)
  }

  function NewSession(req: SessionRequest, merchant: string, i: nat, now: Time): Checkout {
    Checkout(merchant, Some(i), req.amount, Lower(req.currency), Open, now + SESSION_TTL)
  }

  /** `create_session` commits twice: inside `create_intent`, unless the key is a replay, and
      after inserting the session. */
  function CreateSession(db: Db, req: SessionRequest, merchant: string, reply: Reply, now: Time, commits: nat):
      (Db, Outcome<nat>)
  {
    var (db1, out) := CreateIntent(db, IntentRequest(req), Some(merchant), reply, now, commits);
    match out
    case Raised(f) => (db1, Raised(f))
    case Died => (db1, Died)
    case Done(i) =>
      var left := if db1.books == db.books then commits else commits - 1;
      match One(db1.books.sessions, SessionOf(i))
      case ManyRows => (db1, Raised(SeveralRows))
      case OneRow(s) => (db1, Done(s))
      case NoRow =>
        if left <= 0 then (db1, Died)
        else (Save(db1, AddSession(db1.books, NewSession(req, merchant, i, now)), now), Done(|db1.books.sessions|))
  }

  function GetOpenSession(db: Db, s: nat, now: Time, commits: nat): (Db, Outcome<nat>) {
    if s >= |db.books.sessions| then (db, Raised(NotFound))
    else
      var cs := db.books.sessions[s];
      if cs.status == Open && cs.expiresAt < now then
        if commits == 0 then (db, Died) else (Save(db, SetSession(db.books, s, Expired), now), Done(s))
      else (db, Done(s))
  }

  // ----------------------------------------------------------------- webhooks

  const SUCCEEDED_EVENT := "payment_intent.succeeded"

  /** What dispatching an event makes of the books. `commits` says whether `complete_session`
      changed a session, which commits in the middle of the handler. */
  datatype Dispatched = Refused | Applied(books: Books, commits: bool)

  /** `int(obj.get("amount_received", obj["amount"]))`: the default is evaluated first, so an
      object without `amount` raises even when it has `amount_received`; and a null that is there
      is not replaced by the default, so it raises in `int`. */
  function EventAmount(obj: EventObject): Option<int> {
    if obj.amount.Absent? then None
    else
      var chosen := if obj.amountReceived.Absent? then obj.amount else obj.amountReceived;
      if chosen.Number? then Some(chosen.value) else None
  }

  /** The number an event reports: its `amount_received` if it has one, and otherwise its `amount`; an event
      without an `amount` reports nothing. */
  ghost predicate ReportsNumber(obj: EventObject, n: int) {
    || (obj.amountReceived == Number(n) && obj.amount != Absent)
    || (obj.amountReceived == Absent && obj.amount == Number(n))
  }

  lemma NumberIsRead(obj: EventObject, n: int)
    ensures EventAmount(obj) == Some(n) <==> ReportsNumber(obj, n)
  {
  }

  /** `apply_succeeded_event` once the row is found. */
  function ApplySucceeded(b: Books, i: nat, amount: int): Option<Books>
    requires i < |b.intents|
  {
    if b.intents[i].status == Succeeded then Some(b)
    else if amount <= 0 then None
    else Some(BookCapture(b, i, amount))
  }

  function Dispatch(b: Books, e: Event): Dispatched {
    if e.kind != SUCCEEDED_EVENT then Applied(b, false)
    else if e.obj.id.None? || EventAmount(e.obj).None? then Refused
    else
      match One(b.intents, StripeIdIs(e.obj.id.value))
      case ManyRows => Refused
      case NoRow => Applied(b, false)
      case OneRow(i) =>
        var applied := ApplySucceeded(b, i, EventAmount(e.obj).value);
        if applied.None? then Refused
        else
          var b1 := applied.value;
          match One(b1.sessions, SessionOf(i))
          case ManyRows => Refused
          case NoRow => Applied(b1, false)
          case OneRow(s) =>
            if b1.sessions[s].status == Completed then Applied(b1, false)
            else Applied(SetSession(b1, s, Completed), true)
  }

  /** An exception that is not the handler's own doing, such as a lost connection: none, one
      before `complete_session` has committed, or one after it has. */
  datatype Glitch = Smooth | EarlyGlitch | LateGlitch

  datatype Delivery = Delivery(event: Event, glitch: Glitch, now: Time, commits: nat)

  predicate Processed(db: Db, id: string) {
    id in db.events && db.events[id].processedAt.Some?
  }

  /** The row for an event as the handler sees it: the stored one, or the one it has just added. */
  function RowFor(db: Db, e: Event): EventRow {
    if e.id in db.events then db.events[e.id] else EventRow(e, None, false)
  }

  /** The `except` branch: after the rollback the event row is still there only if it was
      committed before; then the error is noted on it. */
  function NoteError(db: Db, id: string, commits: nat): Db {
    if id in db.events && commits > 0 then db.(events := db.events[id := db.events[id].(error := true)]) else db
  }

  datatype Receipt = Received | Duplicate

  /** `stripe_webhook` from the duplicate check on. */
  function Deliver(db: Db, d: Delivery): (Db, Outcome<Receipt>) {
    var e := d.event;
    if Processed(db, e.id) then (db, Done(Duplicate))
    else
      var row := RowFor(db, e);
      var result := Dispatch(db.books, e);
      if result.Refused? || d.glitch == EarlyGlitch then
        (NoteError(db, e.id, d.commits), if e.id in db.events && d.commits == 0 then Died else Raised(HandlerFailed))
      else if d.commits == 0 then (db, Died)
      else
        var midway := Save(db, result.books, d.now).(events := db.events[e.id := row]);
        var final := midway.(events := db.events[e.id := row.(processedAt := Some(d.now))]);
        if !result.commits then (final, Done(Received))
        else if d.glitch == LateGlitch then
          (NoteError(midway, e.id, d.commits - 1), if d.commits == 1 then Died else Raised(HandlerFailed))
        else if d.commits == 1 then (midway, Died)
        else (final, Done(Received))
  }

  // --------------------------------------------------------------------- runs

  /** A request with everything the environment decides: Stripe's reply, the time, the fault. */
  datatype Action =
    | Create(creation: CreateRequest, owner: Option<string>, reply: Reply, now: Time, commits: nat)
    | Confirm(intent: nat, reply: Reply, now: Time, commits: nat)
    | Cancel(intent: nat, reply: Reply, now: Time, commits: nat)
    | Refund(intent: nat, amount: Option<int>, reply: Reply, now: Time, commits: nat)
    | OpenSession(opening: SessionRequest, merchant: string, reply: Reply, now: Time, commits: nat)
    | ViewSession(session: nat, now: Time, commits: nat)
    | Webhook(delivery: Delivery)

  function Step(db: Db, a: Action): Db {
    match a
    case Create(req, owner, reply, now, commits) => CreateIntent(db, req, owner, reply, now, commits).0
    case Confirm(i, reply, now, commits) => ConfirmIntent(db, i, reply, now, commits).0
    case Cancel(i, reply, now, commits) => CancelIntent(db, i, reply, now, commits).0
    case Refund(i, amount, reply, now, commits) => RefundIntent(db, i, amount, reply, now, commits).0
    case OpenSession(req, merchant, reply, now, commits) => CreateSession(db, req, merchant, reply, now, commits).0
    case ViewSession(s, now, commits) => GetOpenSession(db, s, now, commits).0
    case Webhook(d) => Deliver(db, d).0
  }

  function Run(db: Db, actions: seq<Action>): Db
    decreases actions
  {
    if actions == [] then db else Run(Step(db, actions[0]), actions[1..])
  }
}
