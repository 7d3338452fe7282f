/** Stripe as the gateway's peer: it remembers idempotency keys, charges, refunds and the balance
    transactions they leave, and the gateway runs against it. */
module StripePeer {
  import opened Common
  import opened Ledger
  import opened Books
  import opened Operations
  import opened Runs
  import opened Lifecycle
  import opened Paging
  import opened Reconciliation

  datatype ApiCall =
    | Creation(amount: int, currency: string, customer: Option<string>)
    | RefundOf(intent: string, amount: int)

  datatype Answer = Answer(call: ApiCall, reply: Reply)

  datatype RefundRecord = RefundRecord(key: string, intent: string, amount: int)

  /** `answers` is the idempotency map, `charges` the amount received per payment intent. */
  datatype Stripe = Stripe(answers: map<string, Answer>, charges: map<string, int>,
                           refunds: seq<RefundRecord>, transactions: seq<BT>)

  /** The gateway, Stripe, and the refund keys the gateway has booked, each as often as it has. */
  datatype World = World(db: Db, stripe: Stripe, booked: multiset<string>)

  const START := World(EMPTY_DB, Stripe(map[], map[], [], []), multiset{})

  function RefundsOf(id: string): RefundRecord -> int {
    (r: RefundRecord) => if r.intent == id then r.amount else 0
  }

  /** What the gateway has booked of the refunds of an intent: a refund counts as often as its key
      was booked. */
  function BookedRefundsOf(id: string, booked: multiset<string>): RefundRecord -> int {
    (r: RefundRecord) => if r.intent == id then r.amount * booked[r.key] else 0
  }

  /** What is still to be booked; a refund booked twice counts against it. */
  function UnbookedRefundsOf(id: string, booked: multiset<string>): RefundRecord -> int {
    (r: RefundRecord) => if r.intent == id then r.amount - r.amount * booked[r.key] else 0
  }

  /** An idempotent call: a known key with the same parameters gets the recorded reply, with other
      parameters an error. `minted` is what Stripe would answer to a new call. */
  function Replay(st: Stripe, key: string, call: ApiCall): Option<Reply> {
    if key !in st.answers then None
    else if st.answers[key].call == call then Some(st.answers[key].reply)
    else Some(StripeError)
  }

  function StripeCreate(st: Stripe, req: CreateRequest, minted: Reply): (Stripe, Reply) {
    var call := Creation(req.amount, req.currency, req.customer);
    var known := Replay(st, req.key, call);
    if known.Some? then (st, known.value)
    else if minted.StripeError? then (st, StripeError)
    else (st.(answers := st.answers[req.key := Answer(call, minted)]), minted)
  }

  function RefundTransaction(btId: string, now: Time, id: string, amount: int): BT {
    BalanceTransaction(btId, now, "refund", -amount, Expanded(IntentId(id)))
  }

  function ChargeTransaction(btId: string, now: Time, id: string, amount: int): BT {
    BalanceTransaction(btId, now, "charge", amount, Expanded(IntentId(id)))
  }

  function StripeRefund(st: Stripe, id: string, amount: int, key: string, minted: Reply, btId: string,
                        now: Time): (Stripe, Reply) {
    var call := RefundOf(id, amount);
    var known := Replay(st, key, call);
    if known.Some? then (st, known.value)
    else if minted.StripeError? || id !in st.charges || amount <= 0
            || amount > st.charges[id] - Sum(st.refunds, RefundsOf(id)) then (st, StripeError)
    else
      (Stripe(st.answers[key := Answer(call, minted)], st.charges, st.refunds + [RefundRecord(key, id, amount)],
              st.transactions + [RefundTransaction(btId, now, id, amount)]), minted)
  }

  // -------------------------------------------------------------------- moves

  /** A request to the gateway with what Stripe and the environment decide, a delivery, or what
      happens at Stripe alone: a customer pays, somebody refunds without the gateway, another
      transaction is made. */
  datatype Move =
    | CreateAt(creation: CreateRequest, owner: Option<string>, minted: Reply, now: Time, commits: nat)
    | OpenAt(opening: SessionRequest, merchant: string, minted: Reply, now: Time, commits: nat)
    | RefundAt(intent: nat, amount: Option<int>, key: string, minted: Reply, btId: string, now: Time, commits: nat)
    | Local(action: Action)
    | Notify(delivery: Delivery)
    | Charge(id: string, paid: int, btId: string, now: Time)
    | OutsideRefund(id: string, repaid: int, key: string, minted: Reply, btId: string, now: Time)
    | OtherTransaction(bt: BT)

  /** `create_intent` calls Stripe only when the key is new to the gateway. */
  function CallForCreate(w: World, req: CreateRequest, minted: Reply): (Stripe, Reply) {
    if One(w.db.books.intents, KeyIs(req.key)).NoRow? then StripeCreate(w.stripe, req, minted)
    else (w.stripe, StripeError)
  }

  /** `refund_intent` calls Stripe only when its own checks pass. */
  function CallForRefund(w: World, i: nat, amount: Option<int>, key: string, minted: Reply, btId: string,
                         now: Time): (Stripe, Reply) {
    if RefundCheck(w.db.books, i, amount).Some? then (w.stripe, StripeError)
    else
      var x := w.db.books.intents[i];
      StripeRefund(w.stripe, x.stripeId.value, RefundAmount(x, amount), key, minted, btId, now)
  }

  function Next(w: World, m: Move): World {
    match m
    case CreateAt(req, owner, minted, now, commits) =>
      var (st, reply) := CallForCreate(w, req, minted);
      World(Step(w.db, Create(req, owner, reply, now, commits)), st, w.booked)
    case OpenAt(req, merchant, minted, now, commits) =>
      var (st, reply) := CallForCreate(w, IntentRequest(req), minted);
      World(Step(w.db, OpenSession(req, merchant, reply, now, commits)), st, w.booked)
    case RefundAt(i, amount, key, minted, btId, now, commits) =>
      var (st, reply) := CallForRefund(w, i, amount, key, minted, btId, now);
      var a := Refund(i, amount, reply, now, commits);
      World(Step(w.db, a), st, if AcceptedRefund(w.db, a, i) then w.booked + multiset{key} else w.booked)
    case Local(a) => w.(db := Step(w.db, a))
    case Notify(d) => w.(db := Step(w.db, Webhook(d)))
    case Charge(id, paid, btId, now) =>
      w.(stripe := w.stripe.(charges := w.stripe.charges[id := paid],
                             transactions := w.stripe.transactions + [ChargeTransaction(btId, now, id, paid)]))
    case OutsideRefund(id, amount, key, minted, btId, now) =>
      w.(stripe := StripeRefund(w.stripe, id, amount, key, minted, btId, now).0)
    case OtherTransaction(bt) => w.(stripe := w.stripe.(transactions := w.stripe.transactions + [bt]))
  }

  function Play(w: World, moves: seq<Move>): World
    decreases moves
  {
    if moves == [] then w else Play(Next(w, moves[0]), moves[1..])
  }

  // --------------------------------------------------- retries after a crash

  function DeadCreates(w: World, req: CreateRequest, owner: Option<string>, minted: Reply, now: Time, n: nat): World
    decreases n
  {
    if n == 0 then w else DeadCreates(Next(w, CreateAt(req, owner, minted, now, 0)), req, owner, minted, now, n - 1)
  }

  lemma OneDeadCreate(w: World, req: CreateRequest, owner: Option<string>, minted: Reply, now: Time, commits: nat)
    ensures Next(Next(w, CreateAt(req, owner, minted, now, 0)), CreateAt(req, owner, minted, now, commits))
            == Next(w, CreateAt(req, owner, minted, now, commits))
  {
  }

  /** A create that died any number of times after Stripe had answered and before the local commit,
      retried with the same key and parameters, leaves the gateway and Stripe exactly as one
      undisturbed create does: one Stripe object, one local row, one booking. */
  lemma {:induction false} CreateRetriesConverge(w: World, req: CreateRequest, owner: Option<string>, minted: Reply,
                                                 now: Time, n: nat, commits: nat)
    ensures Next(DeadCreates(w, req, owner, minted, now, n), CreateAt(req, owner, minted, now, commits))
            == Next(w, CreateAt(req, owner, minted, now, commits))
    decreases n
  {
    if n > 0 {
      CreateRetriesConverge(Next(w, CreateAt(req, owner, minted, now, 0)), req, owner, minted, now, n - 1, commits);
      OneDeadCreate(w, req, owner, minted, now, commits);
    }
  }

  function DeadRefunds(w: World, i: nat, amount: Option<int>, key: string, minted: Reply, btId: string, now: Time,
                       n: nat): World
    decreases n
  {
    if n == 0 then w
    else DeadRefunds(Next(w, RefundAt(i, amount, key, minted, btId, now, 0)), i, amount, key, minted, btId, now, n - 1)
  }

  /** A refund that dies leaves the gateway as it was, and Stripe with its answer on record. */
  lemma DeadRefund(w: World, i: nat, amount: Option<int>, key: string, minted: Reply, btId: string, now: Time)
    ensures var died := Next(w, RefundAt(i, amount, key, minted, btId, now, 0));
            && died.db == w.db && died.booked == w.booked
            && CallForRefund(died, i, amount, key, minted, btId, now) ==
               (died.stripe, CallForRefund(w, i, amount, key, minted, btId, now).1)
            && died.stripe == CallForRefund(w, i, amount, key, minted, btId, now).0
  {
  }

  lemma OneDeadRefund(w: World, i: nat, amount: Option<int>, key: string, minted: Reply, btId: string, now: Time,
                      commits: nat)
    ensures Next(Next(w, RefundAt(i, amount, key, minted, btId, now, 0)),
                 RefundAt(i, amount, key, minted, btId, now, commits))
            == Next(w, RefundAt(i, amount, key, minted, btId, now, commits))
  {
    DeadRefund(w, i, amount, key, minted, btId, now);
  }

  /** The same for refunds: the retries find the refund Stripe has already made, and it is booked
      once. */
  lemma {:induction false} RefundRetriesConverge(w: World, i: nat, amount: Option<int>, key: string, minted: Reply,
                                                 btId: string, now: Time, n: nat, commits: nat)
    ensures Next(DeadRefunds(w, i, amount, key, minted, btId, now, n),
                 RefundAt(i, amount, key, minted, btId, now, commits))
            == Next(w, RefundAt(i, amount, key, minted, btId, now, commits))
    decreases n
  {
    if n > 0 {
      RefundRetriesConverge(Next(w, RefundAt(i, amount, key, minted, btId, now, 0)), i, amount, key, minted, btId,
                            now, n - 1, commits);
      OneDeadRefund(w, i, amount, key, minted, btId, now, commits);
    }
  }

  lemma NextKeepsAnswers(w: World, m: Move, key: string)
    requires key in w.stripe.answers
    ensures key in Next(w, m).stripe.answers && Next(w, m).stripe.answers[key] == w.stripe.answers[key]
  {
  }

  /** Stripe never forgets a key, so a key stands for one Stripe object for ever. */
  lemma {:induction false} AnswersAreKept(w: World, moves: seq<Move>, key: string)
    requires key in w.stripe.answers
    ensures key in Play(w, moves).stripe.answers && Play(w, moves).stripe.answers[key] == w.stripe.answers[key]
    decreases moves
  {
    if moves != [] {
      NextKeepsAnswers(w, moves[0], key);
      AnswersAreKept(Next(w, moves[0]), moves[1..], key);
    }
  }

  /** Nothing stands in the way of a row for the request with this Stripe reply. */
  ghost predicate RowIsFree(b: Books, req: CreateRequest, reply: Reply) {
    && reply.Reply? && ParseStatus(reply.status).Some? && req.amount >= 1
    && forall x :: x in b.intents ==> x.key != req.key && x.stripeId != Some(reply.id)
  }

  /** A create to which Stripe made an object, whether it then died or not, can be retried at any later
      time. There is never a second Stripe object; the retry stores the row of the first one with
      its booking if and only if neither its key nor its Stripe id has a row by then (and the status
      is one the gateway knows); otherwise nothing changes on either side. */
  lemma LateCreateRetry(w: World, req: CreateRequest, owner: Option<string>, minted: Reply, now: Time, commits: nat,
                        moves: seq<Move>, owner': Option<string>, minted': Reply, now': Time, commits': nat)
    requires CallForCreate(w, req, minted).0 != w.stripe && commits' > 0
    ensures var later := Play(Next(w, CreateAt(req, owner, minted, now, commits)), moves);
            var retried := Next(later, CreateAt(req, owner', minted', now', commits'));
            if RowIsFree(later.db.books, req, minted)
            then retried.stripe == later.stripe && retried.booked == later.booked
                 && retried.db.books == AddIntent(later.db.books,
                      NewIntent(req, owner', minted.id, ParseStatus(minted.status).value), req.currency)
            else retried == later
  {
    var first := Next(w, CreateAt(req, owner, minted, now, commits));
    AnswersAreKept(first, moves, req.key);
    CreateUnderKnownKey(Play(first, moves), req, minted, owner', minted', now', commits');
  }

  lemma CreateUnderKnownKey(w: World, req: CreateRequest, reply: Reply, owner: Option<string>, minted: Reply, now: Time,
                            commits: nat)
    requires req.key in w.stripe.answers && reply.Reply? && commits > 0
    requires w.stripe.answers[req.key] == Answer(Creation(req.amount, req.currency, req.customer), reply)
    ensures var w' := Next(w, CreateAt(req, owner, minted, now, commits));
            if RowIsFree(w.db.books, req, reply)
            then w'.stripe == w.stripe && w'.booked == w.booked
                 && w'.db.books == AddIntent(w.db.books,
                      NewIntent(req, owner, reply.id, ParseStatus(reply.status).value), req.currency)
            else w' == w
  {
    var b := w.db.books;
    assert forall i :: 0 <= i < |b.intents| ==> b.intents[i] in b.intents;
    if One(b.intents, KeyIs(req.key)).NoRow? && One(b.intents, StripeIdIs(reply.id)).NoRow? {
      assert forall i :: 0 <= i < |b.intents| ==> !KeyIs(req.key)(b.intents[i]) && !StripeIdIs(reply.id)(b.intents[i]);
    }
  }

  /** The gateway's intents only advance, whatever both sides do. */
  lemma {:induction false} PlayAdvances(w: World, moves: seq<Move>, i: nat)
    requires Inv(w.db.books) && i < |w.db.books.intents|
    ensures Inv(Play(w, moves).db.books) && i < |Play(w, moves).db.books.intents|
    ensures Advances(w.db.books.intents[i], Play(w, moves).db.books.intents[i])
    decreases moves
  {
    if moves != [] {
      MoveAdvances(w, moves[0], i);
      PlayAdvances(Next(w, moves[0]), moves[1..], i);
    }
  }

  /** What a move has the gateway do, if anything. */
  function ActionOf(w: World, m: Move): Option<Action> {
    match m
    case CreateAt(req, owner, minted, now, commits) =>
      Some(Create(req, owner, CallForCreate(w, req, minted).1, now, commits))
    case OpenAt(req, merchant, minted, now, commits) =>
      Some(OpenSession(req, merchant, CallForCreate(w, IntentRequest(req), minted).1, now, commits))
    case RefundAt(i, amount, key, minted, btId, now, commits) =>
      Some(Refund(i, amount, CallForRefund(w, i, amount, key, minted, btId, now).1, now, commits))
    case Local(a) => Some(a)
    case Notify(d) => Some(Webhook(d))
    case _ => None
  }

  lemma MoveIsItsAction(w: World, m: Move)
    ensures Next(w, m).db == if ActionOf(w, m).Some? then Step(w.db, ActionOf(w, m).value) else w.db
  {
  }

  function ActionsOf(w: World, moves: seq<Move>): seq<Action>
    decreases moves
  {
    if moves == [] then []
    else
      (if ActionOf(w, moves[0]).Some? then [ActionOf(w, moves[0]).value] else [])
      + ActionsOf(Next(w, moves[0]), moves[1..])
  }

  /** Against Stripe the gateway makes a run like any other, so what holds of runs holds here. */
  lemma {:induction false} PlayIsRun(w: World, moves: seq<Move>)
    ensures Play(w, moves).db == Run(w.db, ActionsOf(w, moves))
    decreases moves
  {
    if moves != [] {
      var w', rest := Next(w, moves[0]), moves[1..];
      MoveIsItsAction(w, moves[0]);
      PlayIsRun(w', rest);
      if ActionOf(w, moves[0]).Some? {
        var a := ActionOf(w, moves[0]).value;
        assert ([a] + ActionsOf(w', rest))[1..] == ActionsOf(w', rest);
      } else {
        assert [] + ActionsOf(w', rest) == ActionsOf(w', rest);
      }
    }
  }

  lemma MoveAdvances(w: World, m: Move, i: nat)
    requires Inv(w.db.books) && i < |w.db.books.intents|
    ensures Inv(Next(w, m).db.books) && i < |Next(w, m).db.books.intents|
    ensures Advances(w.db.books.intents[i], Next(w, m).db.books.intents[i])
  {
    MoveIsItsAction(w, m);
    assert IntentOk(w.db.books, i);
    if ActionOf(w, m).Some? {
      StepInv(w.db, ActionOf(w, m).value);
      StepAdvances(w.db, ActionOf(w, m).value, i);
    }
  }

  /** Stripe's answer to a refund request, when the gateway asks and gets one, is on record. */
  predicate RefundAnswered(w: World, i: nat, amount: Option<int>, key: string, minted: Reply, btId: string, now: Time) {
    RefundCheck(w.db.books, i, amount).None? && CallForRefund(w, i, amount, key, minted, btId, now).1.Reply?
  }

  lemma AnsweredIsRecorded(w: World, i: nat, amount: Option<int>, key: string, minted: Reply, btId: string, now: Time,
                           commits: nat)
    requires RefundAnswered(w, i, amount, key, minted, btId, now)
    ensures var x, w' := w.db.books.intents[i], Next(w, RefundAt(i, amount, key, minted, btId, now, commits));
            key in w'.stripe.answers && w'.stripe.answers[key] ==
              Answer(RefundOf(x.stripeId.value, RefundAmount(x, amount)),
                     CallForRefund(w, i, amount, key, minted, btId, now).1)
  {
  }

  /** A refund under a key Stripe has on record for n: nothing is paid out, and the gateway books
      what was paid exactly when its own checks pass and the request comes to the same amount. */
  lemma RefundUnderKnownKey(w: World, i: nat, n: int, amount: Option<int>, key: string, minted: Reply, btId: string,
                            now: Time, commits: nat)
    requires i < |w.db.books.intents| && w.db.books.intents[i].stripeId.Some? && commits > 0
    requires key in w.stripe.answers && w.stripe.answers[key].reply.Reply?
    requires w.stripe.answers[key].call == RefundOf(w.db.books.intents[i].stripeId.value, n)
    ensures var w' := Next(w, RefundAt(i, amount, key, minted, btId, now, commits));
            if RefundCheck(w.db.books, i, amount).None? && RefundAmount(w.db.books.intents[i], amount) == n
            then w'.stripe == w.stripe && w'.booked == w.booked + multiset{key}
                 && w'.db.books == BookRefund(w.db.books, i, n, w.stripe.answers[key].reply.id)
            else w' == w
  {
    var call := RefundOf(w.db.books.intents[i].stripeId.value, RefundAmount(w.db.books.intents[i], amount));
    assert Replay(w.stripe, key, call) == if RefundAmount(w.db.books.intents[i], amount) == n
      then Some(w.stripe.answers[key].reply) else Some(StripeError);
  }

  /** A refund key used again, whether its first use died after Stripe's answer or was booked, at
      any later time and with any amount: Stripe pays nothing again, and the gateway books the
      refund Stripe made if and only if its checks pass and the request comes to the same amount;
      otherwise nothing changes on either side. */
  lemma LateRefundRetry(w: World, i: nat, amount: Option<int>, key: string, minted: Reply, btId: string, now: Time,
                        commits: nat, moves: seq<Move>, amount': Option<int>, minted': Reply, btId': string,
                        now': Time, commits': nat)
    requires Inv(w.db.books) && RefundAnswered(w, i, amount, key, minted, btId, now) && commits' > 0
    ensures var n := RefundAmount(w.db.books.intents[i], amount);
            var later := Play(Next(w, RefundAt(i, amount, key, minted, btId, now, commits)), moves);
            var retried := Next(later, RefundAt(i, amount', key, minted', btId', now', commits'));
            i < |later.db.books.intents| &&
            if RefundCheck(later.db.books, i, amount').None? && RefundAmount(later.db.books.intents[i], amount') == n
            then retried.stripe == later.stripe && retried.booked == later.booked + multiset{key}
                 && retried.db.books ==
                      BookRefund(later.db.books, i, n, CallForRefund(w, i, amount, key, minted, btId, now).1.id)
            else retried == later
  {
    var first := RefundAt(i, amount, key, minted, btId, now, commits);
    var asked := Next(w, first);
    assert IntentOk(w.db.books, i);
    MoveAdvances(w, first, i);
    PlayAdvances(asked, moves, i);
    AnsweredIsRecorded(w, i, amount, key, minted, btId, now, commits);
    AnswersAreKept(asked, moves, key);
    RefundUnderKnownKey(Play(asked, moves), i, RefundAmount(w.db.books.intents[i], amount), amount', key, minted',
                        btId', now', commits');
  }

  /** So replaying a refund that is booked is not idempotent: after any run, the key and amount of a
      booked refund are booked once more exactly when as much is still refundable, and a replay
      without an amount exactly when precisely as much is. */
  lemma RefundReplayBooksAgain(w: World, i: nat, amount: Option<int>, key: string, minted: Reply, btId: string,
                               now: Time, commits: nat, moves: seq<Move>, amount': Option<int>, minted': Reply,
                               btId': string, now': Time, commits': nat)
    requires Inv(w.db.books) && RefundAnswered(w, i, amount, key, minted, btId, now) && commits > 0 && commits' > 0
    requires amount' in {None, Some(RefundAmount(w.db.books.intents[i], amount))}
    ensures var n := RefundAmount(w.db.books.intents[i], amount);
            var later := Play(Next(w, RefundAt(i, amount, key, minted, btId, now, commits)), moves);
            var replayed := Next(later, RefundAt(i, amount', key, minted', btId', now', commits'));
            && i < |later.db.books.intents| && i < |replayed.db.books.intents|
            && replayed.stripe == later.stripe
            && var left := later.db.books.intents[i].Refundable();
               replayed.db.books.intents[i].refunded == later.db.books.intents[i].refunded
                 + (if (if amount'.Some? then n <= left else n == left) then n else 0)
  {
    var first := RefundAt(i, amount, key, minted, btId, now, commits);
    LateRefundRetry(w, i, amount, key, minted, btId, now, commits, moves, amount', minted', btId', now', commits');
    MoveAdvances(w, first, i);
    PlayAdvances(Next(w, first), moves, i);
  }

  /** What one undisturbed refund under a new key does: one refund at Stripe, one booking here, of
      the same amount, and the key is booked. */
  lemma RefundMovesBothSides(w: World, i: nat, amount: Option<int>, key: string, minted: Reply, btId: string,
                             now: Time, commits: nat)
    requires Inv(w.db.books) && key !in w.stripe.answers && i < |w.db.books.intents|
    requires var reply := CallForRefund(w, i, amount, key, minted, btId, now).1;
             AcceptedRefund(w.db, Refund(i, amount, reply, now, commits), i)
    ensures var w' := Next(w, RefundAt(i, amount, key, minted, btId, now, commits));
            var n := RefundAmount(w.db.books.intents[i], amount);
            && w'.stripe.refunds == w.stripe.refunds + [RefundRecord(key, w.db.books.intents[i].stripeId.value, n)]
            && i < |w'.db.books.intents| && w'.db.books.intents[i].refunded == w.db.books.intents[i].refunded + n
            && w'.booked == w.booked + multiset{key}
  {
    var reply := CallForRefund(w, i, amount, key, minted, btId, now).1;
    StepAdvances(w.db, Refund(i, amount, reply, now, commits), i);
  }
}
