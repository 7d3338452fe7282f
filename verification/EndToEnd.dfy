/** The gateway running against Stripe for a day, and the reconciliation of that day. */
module EndToEnd {
  import opened Common
  import opened Ledger
  import opened Books
  import opened Operations
  import opened Ordering
  import opened Runs
  import opened Lifecycle
  import opened Paging
  import opened Reconciliation
  import opened StripePeer

  /** A window of time in which everything happens. */
  datatype Day = Day(start: Time, end: Time)

  predicate Within(day: Day, t: Time) {
    day.start <= t < day.end
  }

  predicate IsMovement(bt: BT) {
    bt.kind == "charge" || bt.kind == "refund"
  }

  /** The intent a charge or refund belongs to; other transactions have none. */
  function MovementOf(bt: BT): Option<string> {
    if IsMovement(bt) then BtIntent(bt) else None
  }

  ghost predicate FreshTransaction(w: World, btId: string) {
    forall k :: 0 <= k < |w.stripe.transactions| ==> w.stripe.transactions[k].id != btId
  }

  predicate IsSuccess(e: Event) {
    e.kind == SUCCEEDED_EVENT
  }

  /** A succeeded event reports a charge that was made, with its amount. */
  ghost predicate Genuine(w: World, e: Event) {
    IsSuccess(e) ==> e.obj.id.Some? && e.obj.id.value in w.stripe.charges
                     && ReportsNumber(e.obj, w.stripe.charges[e.obj.id.value])
  }

  /** What the environment may do: Stripe's events are genuine, the ids it gives its transactions are
      new, and a payment intent is paid once. Everything else is up to it: any replies, charges and
      refunds the gateway knows nothing of, keys used over again. `day` is any span of time. */
  ghost predicate Allowed(w: World, m: Move, day: Day) {
    match m
    case CreateAt(_, _, _, now, _) => Within(day, now)
    case OpenAt(_, _, _, now, _) => Within(day, now)
    case RefundAt(_, _, _, _, btId, now, _) => FreshTransaction(w, btId) && Within(day, now)
    case Local(a) => (a.Confirm? || a.Cancel? || a.ViewSession?) && Within(day, a.now)
    case Notify(d) => Genuine(w, d.event) && Within(day, d.now)
    case Charge(id, paid, btId, now) =>
      id !in w.stripe.charges && paid > 0 && FreshTransaction(w, btId) && Within(day, now)
    case OutsideRefund(_, _, _, _, btId, now) => FreshTransaction(w, btId) && Within(day, now)
    case OtherTransaction(bt) => !IsMovement(bt) && FreshTransaction(w, bt.id) && Within(day, bt.created)
  }

  ghost predicate AllowedAll(w: World, moves: seq<Move>, day: Day)
    decreases moves
  {
    moves == [] || (Allowed(w, moves[0], day) && AllowedAll(Next(w, moves[0]), moves[1..], day))
  }

  // --------------------------------------------------------------- invariant

  /** What Stripe has taken for an intent, net of refunds. */
  function StripeNet(st: Stripe): map<string, int> {
    map id | id in st.charges :: st.charges[id] - Sum(st.refunds, RefundsOf(id))
  }

  ghost predicate StampsOk(db: Db, day: Day) {
    && |db.stamps| == |db.books.intents|
    && forall i :: 0 <= i < |db.stamps| ==> Within(day, db.stamps[i].updated)
  }

  /** The local rows agree with Stripe: what was received, if anything, is what was charged, and what
      was refunded is the sum of the Stripe refunds, each as often as it was booked. */
  ghost predicate RowsAgree(w: World) {
    forall i: nat, id :: LocalIntent(w.db.books, i, id) ==>
      var x := w.db.books.intents[i];
      && (x.received > 0 ==> id in w.stripe.charges && x.received == w.stripe.charges[id])
      && x.refunded == Sum(w.stripe.refunds, BookedRefundsOf(id, w.booked))
  }

  /** Stripe's refund records and its idempotency map tell the same story. */
  ghost predicate RefundsRecorded(st: Stripe) {
    && (forall k, l :: 0 <= k < l < |st.refunds| ==> st.refunds[k].key != st.refunds[l].key)
    && (forall k :: 0 <= k < |st.refunds| ==>
          var r := st.refunds[k];
          r.amount > 0 && r.intent in st.charges
          && r.key in st.answers && st.answers[r.key].call == RefundOf(r.intent, r.amount))
    && (forall key :: key in st.answers && st.answers[key].call.RefundOf? && st.answers[key].reply.Reply? ==>
          exists k :: 0 <= k < |st.refunds| && st.refunds[k].key == key)
    && (forall key :: key in st.answers ==> st.answers[key].reply.Reply?)
  }

  ghost predicate TransactionsOk(st: Stripe, day: Day) {
    && UniqueIds(st.transactions)
    && (forall bt :: bt in st.transactions ==> Within(day, bt.created))
    && GroupMap(st.transactions, MovementOf, BtAmount) == StripeNet(st)
  }

  /** No more is refunded than was charged. */
  ghost predicate ChargesOk(st: Stripe) {
    forall id :: id in st.charges ==> st.charges[id] > 0 && Sum(st.refunds, RefundsOf(id)) <= st.charges[id]
  }

  /** A refund that was booked was booked for a row. */
  ghost predicate BookedHaveRows(w: World) {
    forall k :: 0 <= k < |w.stripe.refunds| && w.stripe.refunds[k].key in w.booked ==>
      HasLocalIntent(w.db.books, w.stripe.refunds[k].intent)
  }

  ghost predicate GatewayInv(db: Db, day: Day) {
    Inv(db.books) && StampsOk(db, day)
  }

  /** What concerns Stripe and the booked keys. */
  ghost predicate PeerInv(st: Stripe, booked: multiset<string>, day: Day) {
    && RefundsRecorded(st) && TransactionsOk(st, day) && ChargesOk(st)
    && forall key :: key in booked ==> key in st.answers
  }

  ghost predicate WorldInv(w: World, day: Day) {
    GatewayInv(w.db, day) && PeerInv(w.stripe, w.booked, day) && RowsAgree(w) && BookedHaveRows(w)
  }

  lemma StartInv(day: Day)
    ensures WorldInv(START, day)
  {
    EmptyInv();
    assert GroupMap(START.stripe.transactions, MovementOf, BtAmount) == map[];
  }

  // -------------------------------------------------------- the gateway's side

  lemma StepStamps(db: Db, a: Action, day: Day)
    requires StampsOk(db, day) && Within(day, TimeOf(a))
    ensures StampsOk(Step(db, a), day)
  {
    StampsFollowRows(db, a);
  }

  /** Old rows keep their Stripe id, and new rows are blank and have a Stripe id of their own. */
  lemma StepRows(db: Db, a: Action)
    requires Inv(db.books)
    ensures |Step(db, a).books.intents| >= |db.books.intents|
    ensures forall i :: 0 <= i < |db.books.intents| ==>
            Step(db, a).books.intents[i].stripeId == db.books.intents[i].stripeId
    ensures forall i :: |db.books.intents| <= i < |Step(db, a).books.intents| ==>
              var x := Step(db, a).books.intents[i]; x.received == 0 && x.refunded == 0
    ensures UniqueIntents(Step(db, a).books)
  {
    StepInv(db, a);
    forall i | 0 <= i < |db.books.intents|
      ensures i < |Step(db, a).books.intents| && Step(db, a).books.intents[i].stripeId == db.books.intents[i].stripeId {
      StepAdvances(db, a, i);
    }
    StepIsItsChanges(db, a);
    ShapeOfChanges(db, a);
    BlankRows(db.books, ChangesOf(db, a));
  }

  lemma {:induction false} BlankRows(b: Books, cs: seq<Change>)
    requires SoundAll(b, cs)
    requires forall k, l :: 0 <= k < l < |cs| && cs[k].RowAdded? ==> cs[l].SessionAdded?
    ensures |ApplyAll(b, cs).intents| >= |b.intents|
    ensures forall i :: |b.intents| <= i < |ApplyAll(b, cs).intents| ==>
              ApplyAll(b, cs).intents[i].received == 0 && ApplyAll(b, cs).intents[i].refunded == 0
    ensures (forall c :: c in cs ==> c.SessionAdded?) ==> ApplyAll(b, cs).intents == b.intents
    decreases cs
  {
    if cs != [] {
      BlankRows(Apply(b, cs[0]), cs[1..]);
      assert forall c :: c in cs[1..] ==> c in cs;
      assert cs[0] in cs;
      if cs[0].RowAdded? {
        assert forall c :: c in cs[1..] ==> c.SessionAdded?;
      }
    }
  }

  /** What a row has received changes only when a webhook captures it, to the event's amount. */
  lemma StepReceives(db: Db, a: Action, i: nat)
    requires Inv(db.books) && i < |db.books.intents| && i < |Step(db, a).books.intents|
    requires Step(db, a).books.intents[i].received != db.books.intents[i].received
    ensures a.Webhook? && IsSuccess(a.delivery.event) && a.delivery.event.obj.id.Some?
    ensures db.books.intents[i].stripeId == a.delivery.event.obj.id
    ensures ReportsNumber(a.delivery.event.obj, Step(db, a).books.intents[i].received)
  {
    StepIsItsChanges(db, a);
    var cs := ChangesOf(db, a);
    ReceivedByCapture(db.books, cs, i);
  }

  lemma {:induction false} ReceivedByCapture(b: Books, cs: seq<Change>, i: nat)
    requires SoundAll(b, cs) && i < |b.intents|
    ensures i < |ApplyAll(b, cs).intents|
    ensures var y := ApplyAll(b, cs).intents[i];
            y.received == b.intents[i].received || Change.Capture(i, y.received) in cs
    decreases cs
  {
    if cs != [] {
      ReceivedByCapture(Apply(b, cs[0]), cs[1..], i);
    }
  }

  /** A Stripe id that has a row has it for good, at the same place. */
  lemma SameRow(b: Books, after: Books, i: nat, id: string)
    requires UniqueIntents(after) && |b.intents| <= |after.intents|
    requires forall j :: 0 <= j < |b.intents| ==> after.intents[j].stripeId == b.intents[j].stripeId
    requires HasLocalIntent(b, id) && LocalIntent(after, i, id)
    ensures LocalIntent(b, i, id)
  {
    var j: nat :| LocalIntent(b, j, id);
    assert after.intents[j].stripeId == after.intents[i].stripeId;
    assert i == j;
  }

  lemma LocalIntentsStay(b: Books, after: Books, id: string)
    requires |b.intents| <= |after.intents| && HasLocalIntent(b, id)
    requires forall j :: 0 <= j < |b.intents| ==> after.intents[j].stripeId == b.intents[j].stripeId
    ensures HasLocalIntent(after, id)
  {
    var j: nat :| LocalIntent(b, j, id);
    assert LocalIntent(after, j, id);
  }

  lemma GatewaySide(db: Db, a: Action, day: Day)
    requires GatewayInv(db, day) && Within(day, TimeOf(a))
    ensures GatewayInv(Step(db, a), day)
  {
    StepInv(db, a);
    StepStamps(db, a, day);
  }

  lemma BookedRowsStay(w: World, a: Action)
    requires Inv(w.db.books) && BookedHaveRows(w)
    ensures BookedHaveRows(w.(db := Step(w.db, a)))
  {
    StepRows(w.db, a);
    forall k | 0 <= k < |w.stripe.refunds| && w.stripe.refunds[k].key in w.booked
      ensures HasLocalIntent(Step(w.db, a).books, w.stripe.refunds[k].intent) {
      LocalIntentsStay(w.db.books, Step(w.db, a).books, w.stripe.refunds[k].intent);
    }
  }

  /** Rows keep agreeing with an unchanged Stripe under any step that is not an accepted refund. */
  lemma RowsStayAgreed(w: World, a: Action, day: Day)
    requires WorldInv(w, day)
    requires a.Webhook? ==> Genuine(w, a.delivery.event)
    requires forall i: nat :: !AcceptedRefund(w.db, a, i)
    ensures RowsAgree(w.(db := Step(w.db, a)))
  {
    var after := Step(w.db, a);
    StepRows(w.db, a);
    forall i: nat, id | LocalIntent(after.books, i, id)
      ensures after.books.intents[i].received > 0 ==>
              id in w.stripe.charges && after.books.intents[i].received == w.stripe.charges[id]
      ensures after.books.intents[i].refunded == Sum(w.stripe.refunds, BookedRefundsOf(id, w.booked))
    {
      if i < |w.db.books.intents| {
        assert LocalIntent(w.db.books, i, id);
        StepAdvances(w.db, a, i);
        if after.books.intents[i].received != w.db.books.intents[i].received {
          StepReceives(w.db, a, i);
        }
      } else {
        NoRefundsWithoutRow(w, after.books, i, id);
      }
    }
  }

  lemma NoRefundsWithoutRow(w: World, after: Books, i: nat, id: string)
    requires BookedHaveRows(w) && UniqueIntents(after)
    requires |w.db.books.intents| <= i < |after.intents| && LocalIntent(after, i, id)
    requires forall j :: 0 <= j < |w.db.books.intents| ==> after.intents[j].stripeId == w.db.books.intents[j].stripeId
    ensures Sum(w.stripe.refunds, BookedRefundsOf(id, w.booked)) == 0
  {
    forall r | r in w.stripe.refunds ensures BookedRefundsOf(id, w.booked)(r) == 0 {
      var k :| 0 <= k < |w.stripe.refunds| && w.stripe.refunds[k] == r;
      if r.intent == id && r.key in w.booked {
        assert HasLocalIntent(w.db.books, w.stripe.refunds[k].intent);
        SameRow(w.db.books, after, i, id);
      }
    }
    SumZero(w.stripe.refunds, BookedRefundsOf(id, w.booked));
  }

  // ------------------------------------------------------------- every move

  lemma CreatePeer(st: Stripe, booked: multiset<string>, req: CreateRequest, minted: Reply, day: Day)
    requires PeerInv(st, booked, day)
    ensures PeerInv(StripeCreate(st, req, minted).0, booked, day)
    ensures var st' := StripeCreate(st, req, minted).0;
            st'.charges == st.charges && st'.refunds == st.refunds
  {
    var st' := StripeCreate(st, req, minted).0;
    assert StripeNet(st') == StripeNet(st);
    forall key | key in st'.answers && st'.answers[key].call.RefundOf? && st'.answers[key].reply.Reply?
      ensures exists k :: 0 <= k < |st'.refunds| && st'.refunds[k].key == key {
      assert key in st.answers && st'.answers[key] == st.answers[key];
    }
  }

  /** Rows agree with a Stripe that differs only in its idempotency map. */
  lemma AgreementFrame(w: World, w': World)
    requires RowsAgree(w) && BookedHaveRows(w) && w'.db.books == w.db.books && w'.booked == w.booked
    requires w'.stripe.charges == w.stripe.charges && w'.stripe.refunds == w.stripe.refunds
    ensures RowsAgree(w') && BookedHaveRows(w')
  {
  }

  lemma CreateMoves(w: World, req: CreateRequest, minted: Reply, a: Action, day: Day)
    requires WorldInv(w, day) && Within(day, TimeOf(a))
    requires a.Create? || a.OpenSession?
    requires a.reply == CallForCreate(w, req, minted).1
    ensures WorldInv(World(Step(w.db, a), CallForCreate(w, req, minted).0, w.booked), day)
  {
    var st := CallForCreate(w, req, minted).0;
    var w1 := w.(db := Step(w.db, a));
    CreatePeer(w.stripe, w.booked, req, minted, day);
    GatewaySide(w.db, a, day);
    RowsStayAgreed(w, a, day);
    BookedRowsStay(w, a);
    AgreementFrame(w1, World(w1.db, st, w.booked));
  }

  lemma LocalMoves(w: World, a: Action, day: Day)
    requires WorldInv(w, day) && Within(day, TimeOf(a)) && !a.Refund?
    requires a.Webhook? ==> Genuine(w, a.delivery.event)
    ensures WorldInv(w.(db := Step(w.db, a)), day)
  {
    GatewaySide(w.db, a, day);
    RowsStayAgreed(w, a, day);
    BookedRowsStay(w, a);
  }

  /** One more transaction on Stripe's list, matched by the same change of the net amounts. */
  lemma OneMoreTransaction(st: Stripe, st': Stripe, bt: BT, day: Day)
    requires TransactionsOk(st, day) && Within(day, bt.created)
    requires forall k :: 0 <= k < |st.transactions| ==> st.transactions[k].id != bt.id
    requires st'.transactions == st.transactions + [bt]
    requires StripeNet(st') == AddToGroup(StripeNet(st), MovementOf(bt), BtAmount(bt))
    ensures TransactionsOk(st', day)
  {
    GroupMapSnoc(st.transactions, bt, MovementOf, BtAmount);
  }

  lemma NetOfCharge(st: Stripe, st': Stripe, id: string, paid: int)
    requires RefundsRecorded(st) && id !in st.charges
    requires st'.charges == st.charges[id := paid] && st'.refunds == st.refunds
    ensures StripeNet(st') == AddToGroup(StripeNet(st), Some(id), paid)
  {
    forall r | r in st.refunds ensures RefundsOf(id)(r) == 0 {
      var k :| 0 <= k < |st.refunds| && st.refunds[k] == r;
      assert st.refunds[k].intent in st.charges;
    }
    SumZero(st.refunds, RefundsOf(id));
  }

  lemma ChargePeer(w: World, id: string, paid: int, btId: string, now: Time, day: Day)
    requires PeerInv(w.stripe, w.booked, day) && Allowed(w, Charge(id, paid, btId, now), day)
    ensures PeerInv(Next(w, Charge(id, paid, btId, now)).stripe, w.booked, day)
  {
    var st, st' := w.stripe, Next(w, Charge(id, paid, btId, now)).stripe;
    NetOfCharge(st, st', id, paid);
    assert StripeNet(st')[id] == paid;
    OneMoreTransaction(st, st', ChargeTransaction(btId, now, id, paid), day);
  }

  lemma ChargeMoves(w: World, id: string, paid: int, btId: string, now: Time, day: Day)
    requires WorldInv(w, day) && Allowed(w, Charge(id, paid, btId, now), day)
    ensures WorldInv(Next(w, Charge(id, paid, btId, now)), day)
  {
    var w' := Next(w, Charge(id, paid, btId, now));
    ChargePeer(w, id, paid, btId, now, day);
    forall i: nat, x | LocalIntent(w'.db.books, i, x)
      ensures w'.db.books.intents[i].received > 0 ==>
              x in w'.stripe.charges && w'.db.books.intents[i].received == w'.stripe.charges[x]
      ensures w'.db.books.intents[i].refunded == Sum(w'.stripe.refunds, BookedRefundsOf(x, w'.booked))
    {
      assert LocalIntent(w.db.books, i, x);
    }
  }

  lemma OtherTransactionMoves(w: World, bt: BT, day: Day)
    requires WorldInv(w, day) && Allowed(w, OtherTransaction(bt), day)
    ensures WorldInv(Next(w, OtherTransaction(bt)), day)
  {
    var w' := Next(w, OtherTransaction(bt));
    GroupMapSnoc(w.stripe.transactions, bt, MovementOf, BtAmount);
    assert StripeNet(w'.stripe) == StripeNet(w.stripe);
    AgreementFrame(w, w');
  }

  lemma NetOfRefund(st: Stripe, st': Stripe, r: RefundRecord)
    requires r.intent in st.charges
    requires st'.charges == st.charges && st'.refunds == st.refunds + [r]
    ensures StripeNet(st') == AddToGroup(StripeNet(st), Some(r.intent), -r.amount)
  {
    forall x
      ensures Sum(st'.refunds, RefundsOf(x)) ==
              Sum(st.refunds, RefundsOf(x)) + (if x == r.intent then r.amount else 0) {
      SumSnoc(st.refunds, r, RefundsOf(x));
    }
  }

  lemma RefundPeer(st: Stripe, st': Stripe, booked: multiset<string>, r: RefundRecord, minted: Reply, bt: BT, day: Day)
    requires PeerInv(st, booked, day) && r.key !in st.answers && minted.Reply? && r.intent in st.charges && r.amount > 0
    requires MovementOf(bt) == Some(r.intent) && BtAmount(bt) == -r.amount && Within(day, bt.created)
    requires r.amount <= st.charges[r.intent] - Sum(st.refunds, RefundsOf(r.intent))
    requires forall k :: 0 <= k < |st.transactions| ==> st.transactions[k].id != bt.id
    requires st' == Stripe(st.answers[r.key := Answer(RefundOf(r.intent, r.amount), minted)], st.charges,
                           st.refunds + [r], st.transactions + [bt])
    ensures PeerInv(st', booked, day)
  {
    NetOfRefund(st, st', r);
    OneMoreTransaction(st, st', bt, day);
    RefundStaysRecorded(st, r, minted, st');
    RefundFits(st, st', r);
  }

  lemma RefundFits(st: Stripe, st': Stripe, r: RefundRecord)
    requires ChargesOk(st) && r.intent in st.charges
             && r.amount <= st.charges[r.intent] - Sum(st.refunds, RefundsOf(r.intent))
    requires st'.charges == st.charges && st'.refunds == st.refunds + [r]
    ensures ChargesOk(st')
  {
    forall id | id in st'.charges ensures st'.charges[id] > 0 && Sum(st'.refunds, RefundsOf(id)) <= st'.charges[id] {
      SumSnoc(st.refunds, r, RefundsOf(id));
    }
  }

  /** A refund Stripe has made and the gateway has not booked yet: Stripe's side moves alone. */
  lemma RefundMade(w: World, id: string, amount: int, key: string, minted: Reply, btId: string, now: Time, day: Day)
    requires WorldInv(w, day) && key !in w.stripe.answers && minted.Reply? && id in w.stripe.charges && amount > 0
    requires amount <= w.stripe.charges[id] - Sum(w.stripe.refunds, RefundsOf(id))
    requires FreshTransaction(w, btId) && Within(day, now)
    ensures WorldInv(w.(stripe := StripeRefund(w.stripe, id, amount, key, minted, btId, now).0), day)
  {
    var w' := w.(stripe := StripeRefund(w.stripe, id, amount, key, minted, btId, now).0);
    RefundPeer(w.stripe, w'.stripe, w.booked, RefundRecord(key, id, amount), minted,
               RefundTransaction(btId, now, id, amount), day);
    forall i: nat, x | LocalIntent(w'.db.books, i, x)
      ensures w'.db.books.intents[i].received > 0 ==>
              x in w'.stripe.charges && w'.db.books.intents[i].received == w'.stripe.charges[x]
      ensures w'.db.books.intents[i].refunded == Sum(w'.stripe.refunds, BookedRefundsOf(x, w'.booked))
    {
      assert LocalIntent(w.db.books, i, x) && key !in w.booked;
      SumSnoc(w.stripe.refunds, RefundRecord(key, id, amount), BookedRefundsOf(x, w.booked));
    }
  }

  lemma RefundStaysRecorded(st: Stripe, r: RefundRecord, minted: Reply, st': Stripe)
    requires RefundsRecorded(st) && r.key !in st.answers && r.amount > 0 && r.intent in st.charges && minted.Reply?
    requires st'.answers == st.answers[r.key := Answer(RefundOf(r.intent, r.amount), minted)]
    requires st'.refunds == st.refunds + [r] && st'.charges == st.charges
    ensures RefundsRecorded(st')
  {
    forall key | key in st'.answers && st'.answers[key].call.RefundOf? && st'.answers[key].reply.Reply?
      ensures exists k :: 0 <= k < |st'.refunds| && st'.refunds[k].key == key {
      if key == r.key {
        assert st'.refunds[|st.refunds|].key == key;
      } else {
        var k :| 0 <= k < |st.refunds| && st.refunds[k].key == key;
        assert st'.refunds[k].key == key;
      }
    }
  }

  /** Booking a key once more adds the amount of its refund to the booked total of its intent. */
  lemma {:induction false} BookKey(refunds: seq<RefundRecord>, booked: multiset<string>, key: string, k: nat,
                                   id: string)
    requires forall i, j :: 0 <= i < j < |refunds| ==> refunds[i].key != refunds[j].key
    requires k < |refunds| && refunds[k].key == key
    ensures Sum(refunds, BookedRefundsOf(id, booked + multiset{key})) ==
            Sum(refunds, BookedRefundsOf(id, booked)) + (if refunds[k].intent == id then refunds[k].amount else 0)
  {
    var n := |refunds| - 1;
    if k < n {
      BookKey(refunds[..n], booked, key, k, id);
    } else {
      forall r | r in refunds[..n]
        ensures BookedRefundsOf(id, booked + multiset{key})(r) == BookedRefundsOf(id, booked)(r) {
        var i :| 0 <= i < n && refunds[i] == r;
        assert refunds[i].key != refunds[n].key;
      }
      SumSame(refunds[..n], BookedRefundsOf(id, booked + multiset{key}), BookedRefundsOf(id, booked));
      var a, m := refunds[n].amount, booked[key];
      assert a * (m + 1) == a * m + a;
    }
  }

  /** An accepted refund changes one row, and only its refunded total. */
  lemma RefundOneRow(w: World, a: Action, i: nat, j: nat, id: string)
    requires Inv(w.db.books) && RowsAgree(w) && a.Refund? && a.intent == i && AcceptedRefund(w.db, a, i)
    requires i < |w.db.books.intents| && LocalIntent(Step(w.db, a).books, j, id)
    ensures LocalIntent(w.db.books, j, id)
    ensures var x, y := w.db.books.intents[j], Step(w.db, a).books.intents[j];
            && y.received == x.received
            && y.refunded == x.refunded
               + (if w.db.books.intents[i].stripeId == Some(id) then RefundAmount(x, a.amount) else 0)
  {
    StepAdvances(w.db, a, j);
    if w.db.books.intents[i].stripeId == Some(id) {
      assert i == j;
    }
  }

  /** The gateway books a refund that Stripe has on record. */
  lemma RefundBooked(w: World, a: Action, i: nat, key: string, day: Day)
    requires WorldInv(w, day) && a.Refund? && a.intent == i && AcceptedRefund(w.db, a, i) && Within(day, a.now)
    requires i < |w.db.books.intents| && w.db.books.intents[i].stripeId.Some?
    requires key in w.stripe.answers && w.stripe.answers[key].reply.Reply?
    requires w.stripe.answers[key].call ==
             RefundOf(w.db.books.intents[i].stripeId.value, RefundAmount(w.db.books.intents[i], a.amount))
    ensures WorldInv(World(Step(w.db, a), w.stripe, w.booked + multiset{key}), day)
  {
    var after, st := Step(w.db, a), w.stripe;
    var w' := World(after, st, w.booked + multiset{key});
    GatewaySide(w.db, a, day);
    assert PeerInv(st, w'.booked, day);
    var k :| 0 <= k < |st.refunds| && st.refunds[k].key == key;
    KeyHasRow(w, a, i, key, k);
    forall j: nat, id | LocalIntent(after.books, j, id)
      ensures after.books.intents[j].received > 0 ==>
              id in st.charges && after.books.intents[j].received == st.charges[id]
      ensures after.books.intents[j].refunded == Sum(st.refunds, BookedRefundsOf(id, w'.booked))
    {
      BookedRowAgrees(w, a, i, key, k, j, id);
    }
  }

  lemma KeyHasRow(w: World, a: Action, i: nat, key: string, k: nat)
    requires Inv(w.db.books) && BookedHaveRows(w) && RefundsRecorded(w.stripe) && i < |w.db.books.intents|
    requires k < |w.stripe.refunds| && w.stripe.refunds[k].key == key
    requires w.stripe.answers[key].call.RefundOf?
             && w.db.books.intents[i].stripeId == Some(w.stripe.answers[key].call.intent)
    ensures BookedHaveRows(World(Step(w.db, a), w.stripe, w.booked + multiset{key}))
  {
    BookedRowsStay(w, a);
    assert LocalIntent(w.db.books, i, w.stripe.refunds[k].intent);
    StepRows(w.db, a);
    LocalIntentsStay(w.db.books, Step(w.db, a).books, w.stripe.refunds[k].intent);
  }

  lemma BookedRowAgrees(w: World, a: Action, i: nat, key: string, k: nat, j: nat, id: string)
    requires Inv(w.db.books) && RowsAgree(w) && RefundsRecorded(w.stripe)
    requires a.Refund? && a.intent == i && AcceptedRefund(w.db, a, i) && i < |w.db.books.intents|
    requires w.db.books.intents[i].stripeId.Some?
    requires k < |w.stripe.refunds| && w.stripe.refunds[k].key == key
    requires w.stripe.answers[key].call ==
             RefundOf(w.db.books.intents[i].stripeId.value, RefundAmount(w.db.books.intents[i], a.amount))
    requires LocalIntent(Step(w.db, a).books, j, id)
    ensures var y := Step(w.db, a).books.intents[j];
            && (y.received > 0 ==> id in w.stripe.charges && y.received == w.stripe.charges[id])
            && y.refunded == Sum(w.stripe.refunds, BookedRefundsOf(id, w.booked + multiset{key}))
  {
    BookKey(w.stripe.refunds, w.booked, key, k, id);
    StepRowsOfRefund(w.db, a);
    RefundOneRow(w, a, i, j, id);
    assert LocalIntent(w.db.books, j, id);
  }

  lemma StepRowsOfRefund(db: Db, a: Action)
    requires a.Refund?
    ensures |Step(db, a).books.intents| == |db.books.intents|
  {
  }

  lemma RefundMoves(w: World, i: nat, amount: Option<int>, key: string, minted: Reply, btId: string, now: Time,
                    commits: nat, day: Day)
    requires WorldInv(w, day) && Allowed(w, RefundAt(i, amount, key, minted, btId, now, commits), day)
    ensures WorldInv(Next(w, RefundAt(i, amount, key, minted, btId, now, commits)), day)
  {
    var (st, reply) := CallForRefund(w, i, amount, key, minted, btId, now);
    if RefundCheck(w.db.books, i, amount).None? {
      RefundAsked(w, i, amount, key, minted, btId, now, day);
      if AcceptedRefund(w.db, Refund(i, amount, reply, now, commits), i) {
        RefundBooked(w.(stripe := st), Refund(i, amount, reply, now, commits), i, key, day);
      }
    }
  }

  /** What the request makes Stripe do keeps both sides in agreement, and Stripe's answer is on record. */
  lemma RefundAsked(w: World, i: nat, amount: Option<int>, key: string, minted: Reply, btId: string, now: Time,
                    day: Day)
    requires WorldInv(w, day) && FreshTransaction(w, btId) && Within(day, now)
    requires RefundCheck(w.db.books, i, amount).None?
    ensures var (st, reply) := CallForRefund(w, i, amount, key, minted, btId, now);
            var x := w.db.books.intents[i];
            && WorldInv(w.(stripe := st), day) && x.stripeId.Some?
            && (reply.Reply? ==>
                  && key in st.answers && st.answers[key].reply.Reply?
                  && st.answers[key].call == RefundOf(x.stripeId.value, RefundAmount(x, amount)))
  {
    var x := w.db.books.intents[i];
    if CallForRefund(w, i, amount, key, minted, btId, now).0 != w.stripe {
      RefundMade(w, x.stripeId.value, RefundAmount(x, amount), key, minted, btId, now, day);
    }
  }

  lemma MoveInv(w: World, m: Move, day: Day)
    requires WorldInv(w, day) && Allowed(w, m, day)
    ensures WorldInv(Next(w, m), day)
  {
    match m
    case CreateAt(req, owner, minted, now, commits) =>
      CreateMoves(w, req, minted, Create(req, owner, CallForCreate(w, req, minted).1, now, commits), day);
    case OpenAt(req, merchant, minted, now, commits) =>
      CreateMoves(w, IntentRequest(req), minted,
                  OpenSession(req, merchant, CallForCreate(w, IntentRequest(req), minted).1, now, commits), day);
    case RefundAt(i, amount, key, minted, btId, now, commits) =>
      RefundMoves(w, i, amount, key, minted, btId, now, commits, day);
    case Local(a) => LocalMoves(w, a, day);
    case Notify(d) => LocalMoves(w, Webhook(d), day);
    case Charge(id, paid, btId, now) => ChargeMoves(w, id, paid, btId, now, day);
    case OutsideRefund(id, amount, key, minted, btId, now) =>
      if Next(w, m).stripe != w.stripe { RefundMade(w, id, amount, key, minted, btId, now, day); }
    case OtherTransaction(bt) => OtherTransactionMoves(w, bt, day);
  }

  lemma {:induction false} PlayInv(w: World, moves: seq<Move>, day: Day)
    requires WorldInv(w, day) && AllowedAll(w, moves, day)
    ensures WorldInv(Play(w, moves), day)
    decreases moves
  {
    if moves != [] {
      MoveInv(w, moves[0], day);
      PlayInv(Next(w, moves[0]), moves[1..], day);
    }
  }

  lemma ReachableWorld(moves: seq<Move>, day: Day)
    requires AllowedAll(START, moves, day)
    ensures WorldInv(Play(START, moves), day)
  {
    StartInv(day);
    PlayInv(START, moves, day);
  }

  // --------------------------------------------------- reconciling the day

  /** What `reconcile_day` computes for a window, read off Stripe's pages and the local rows. */
  function DayReport(w: World, window: Day): ReconciliationRun {
    WindowReport(w.stripe.transactions, w.db, window.start, window.end)
  }

  /** The intent of a charge or refund made within a window. */
  function MovementIn(window: Day): BT -> Option<string> {
    (bt: BT) => if Within(window, bt.created) then MovementOf(bt) else None
  }

  function OfKind(window: Day, kind: string, id: string): BT -> int {
    (bt: BT) => if Within(window, bt.created) && bt.kind == kind then Restrict(BtIntent, BtAmount, id)(bt) else 0
  }

  lemma ListingOfDay(ts: seq<BT>, day: Day)
    ensures Listing(ts, day.start, day.end, MOVEMENTS) ==
            Filter(ts, Selects(day.start, day.end, Some("charge")))
              + Filter(ts, Selects(day.start, day.end, Some("refund")))
  {
    assert MOVEMENTS[..1] == ["charge"] && ["charge"][..0] == [];
    assert ListingOf(ts, day.start, day.end, ["charge"]) == Filter(ts, Selects(day.start, day.end, Some("charge")));
  }

  lemma KindSum(ts: seq<BT>, day: Day, kind: string, id: string)
    ensures Sum(Filter(ts, Selects(day.start, day.end, Some(kind))), Restrict(BtIntent, BtAmount, id)) ==
            Sum(ts, OfKind(day, kind, id))
  {
    FilterSum(ts, Selects(day.start, day.end, Some(kind)), Restrict(BtIntent, BtAmount, id), OfKind(day, kind, id));
  }

  lemma ListedSum(ts: seq<BT>, day: Day, id: string)
    ensures Sum(Listing(ts, day.start, day.end, MOVEMENTS), Restrict(BtIntent, BtAmount, id))
            == Sum(ts, Restrict(MovementIn(day), BtAmount, id))
  {
    ListingOfDay(ts, day);
    SumAppend(Filter(ts, Selects(day.start, day.end, Some("charge"))),
              Filter(ts, Selects(day.start, day.end, Some("refund"))),
              Restrict(BtIntent, BtAmount, id));
    KindSum(ts, day, "charge", id);
    KindSum(ts, day, "refund", id);
    assert "charge"[0] != "refund"[0];
    forall bt | bt in ts
      ensures Restrict(MovementIn(day), BtAmount, id)(bt) ==
              OfKind(day, "charge", id)(bt) + OfKind(day, "refund", id)(bt) {
      if IsMovement(bt) {
        assert MovementOf(bt) == BtIntent(bt);
      } else {
        assert MovementOf(bt) == None;
      }
    }
    SumLinear(ts, OfKind(day, "charge", id), OfKind(day, "refund", id), Restrict(MovementIn(day), BtAmount, id));
  }

  lemma ListedKeys(ts: seq<BT>, day: Day, id: string)
    ensures id in KeySet(Listing(ts, day.start, day.end, MOVEMENTS), BtIntent) <==> id in KeySet(ts, MovementIn(day))
  {
    var listed := Listing(ts, day.start, day.end, MOVEMENTS);
    ListingMembers(ts, day.start, day.end, MOVEMENTS);
    if id in KeySet(listed, BtIntent) {
      var k :| 0 <= k < |listed| && BtIntent(listed[k]).Some? && BtIntent(listed[k]).value == id;
      assert listed[k] in ts && listed[k].kind in MOVEMENTS;
      var l :| 0 <= l < |ts| && ts[l] == listed[k];
      assert MovementIn(day)(ts[l]).value == id;
    }
    if id in KeySet(ts, MovementIn(day)) {
      var l :| 0 <= l < |ts| && MovementIn(day)(ts[l]).Some? && MovementIn(day)(ts[l]).value == id;
      assert MOVEMENTS[0] == "charge" && MOVEMENTS[1] == "refund";
      assert ts[l] in ts && ts[l].kind in MOVEMENTS && ts[l] in listed;
      var k :| 0 <= k < |listed| && listed[k] == ts[l];
      assert BtIntent(listed[k]).value == id;
    }
  }

  /** What `reconcile_day` reads off Stripe's pages for a window is the sum of the charges and
      refunds made within it, per intent. */
  lemma StripeSideOfWindow(ts: seq<BT>, window: Day)
    ensures StripeByIntent(Listing(ts, window.start, window.end, MOVEMENTS)) ==
            GroupMap(ts, MovementIn(window), BtAmount)
  {
    var listed := StripeByIntent(Listing(ts, window.start, window.end, MOVEMENTS));
    var moved := GroupMap(ts, MovementIn(window), BtAmount);
    forall id ensures id in listed <==> id in moved
              ensures id in listed && id in moved ==> listed[id] == moved[id] {
      ListedKeys(ts, window, id);
      ListedSum(ts, window, id);
    }
    assert listed == moved;
  }

  /** For the window of all activity it is what Stripe has taken net. */
  lemma StripeSideOfDay(st: Stripe, day: Day)
    requires TransactionsOk(st, day)
    ensures StripeByIntent(Listing(st.transactions, day.start, day.end, MOVEMENTS)) == StripeNet(st)
  {
    StripeSideOfWindow(st.transactions, day);
    AllInTheWindow(st.transactions, day);
  }

  lemma AllInTheWindow(ts: seq<BT>, window: Day)
    requires forall bt :: bt in ts ==> Within(window, bt.created)
    ensures GroupMap(ts, MovementIn(window), BtAmount) == GroupMap(ts, MovementOf, BtAmount)
  {
    assert forall k :: 0 <= k < |ts| ==> ts[k] in ts && MovementIn(window)(ts[k]) == MovementOf(ts[k]);
    assert KeySet(ts, MovementIn(window)) == KeySet(ts, MovementOf);
    forall id | id in KeySet(ts, MovementOf)
      ensures Sum(ts, Restrict(MovementIn(window), BtAmount, id)) == Sum(ts, Restrict(MovementOf, BtAmount, id)) {
      SumSame(ts, Restrict(MovementIn(window), BtAmount, id), Restrict(MovementOf, BtAmount, id));
    }
  }

  /** The row of an intent is in the window and has succeeded. */
  ghost predicate TouchedAt(db: Db, window: Day, i: nat, id: string) {
    LocalIntent(db.books, i, id) && db.books.intents[i].status == Succeeded
      && UpdatedIn(db, i, window.start, window.end)
  }

  ghost predicate Touched(db: Db, window: Day, id: string) {
    exists i: nat :: TouchedAt(db, window, i, id)
  }

  ghost predicate RowBelow(db: Db, window: Day, id: string, n: nat) {
    exists i: nat :: i < n && LocalIntent(db.books, i, id) && UpdatedIn(db, i, window.start, window.end)
  }

  lemma {:induction false} InternalRows(db: Db, window: Day, n: nat)
    requires n <= |db.books.intents| && UniqueIntents(db.books)
    ensures var rows := InternalIntents(db, window.start, window.end, n);
            && (forall id :: id in rows ==> RowBelow(db, window, id, n))
            && (forall id, i: nat ::
                  i < n && LocalIntent(db.books, i, id) && UpdatedIn(db, i, window.start, window.end) ==>
                  id in rows && rows[id] == db.books.intents[i])
  {
    if n > 0 {
      InternalRows(db, window, n - 1);
      var x := db.books.intents[n - 1];
      var rows := InternalIntents(db, window.start, window.end, n);
      forall id | id in rows ensures RowBelow(db, window, id, n) {
        if UpdatedIn(db, n - 1, window.start, window.end) && x.stripeId == Some(id) {
          assert LocalIntent(db.books, n - 1, id);
        } else {
          assert id in InternalIntents(db, window.start, window.end, n - 1);
          assert RowBelow(db, window, id, n - 1);
        }
      }
    }
  }

  /** What `reconcile_day` reads off the local rows: received minus refunded, where succeeded and
      updated within the window. */
  lemma InternalSideOfWindow(db: Db, window: Day)
    requires UniqueIntents(db.books)
    ensures var internal := InternalByIntent(db, window.start, window.end);
            && (forall id :: id in internal <==> Touched(db, window, id))
            && (forall id, i: nat :: TouchedAt(db, window, i, id) ==>
                id in internal && internal[id] == db.books.intents[i].Refundable())
  {
    InternalRows(db, window, |db.books.intents|);
    var rows := InternalIntents(db, window.start, window.end, |db.books.intents|);
    forall id | id in InternalByIntent(db, window.start, window.end) ensures Touched(db, window, id) {
      assert id in rows && RowBelow(db, window, id, |db.books.intents|);
      var i: nat :| i < |db.books.intents| && LocalIntent(db.books, i, id)
        && UpdatedIn(db, i, window.start, window.end);
      assert rows[id] == db.books.intents[i];
      assert TouchedAt(db, window, i, id);
    }
  }

  lemma InternalSideOfDay(db: Db, day: Day)
    requires StampsOk(db, day) && UniqueIntents(db.books)
    ensures var internal := InternalByIntent(db, day.start, day.end);
            && (forall id :: id in internal ==>
                exists i: nat :: LocalIntent(db.books, i, id) && db.books.intents[i].status == Succeeded)
            && (forall id, i: nat :: LocalIntent(db.books, i, id) && db.books.intents[i].status == Succeeded ==>
                  id in internal && internal[id] == db.books.intents[i].Refundable())
  {
    InternalSideOfWindow(db, day);
    forall id | id in InternalByIntent(db, day.start, day.end)
      ensures exists i: nat :: LocalIntent(db.books, i, id) && db.books.intents[i].status == Succeeded {
      var i: nat :| TouchedAt(db, day, i, id);
    }
    assert forall id, i: nat :: LocalIntent(db.books, i, id) && db.books.intents[i].status == Succeeded ==>
           TouchedAt(db, day, i, id);
  }

  /** The row of a charge has succeeded, and the refunds not booked make up for what was not captured.
      For a captured row both are nothing; a row that a reply made SUCCEEDED has captured nothing, and
      is settled only when Stripe has paid everything back. */
  ghost predicate SettledAt(w: World, i: nat, id: string) {
    && LocalIntent(w.db.books, i, id) && w.db.books.intents[i].status == Succeeded && id in w.stripe.charges
    && Sum(w.stripe.refunds, UnbookedRefundsOf(id, w.booked)) == w.stripe.charges[id] - w.db.books.intents[i].received
  }

  ghost predicate SettledIntent(w: World, id: string) {
    exists i: nat :: SettledAt(w, i, id)
  }

  /** Every charge is settled, and nothing has succeeded here that was not charged there. */
  ghost predicate Settled(w: World) {
    && (forall id :: id in w.stripe.charges ==> SettledIntent(w, id))
    && (forall id :: SucceededRow(w.db.books, id) ==> id in w.stripe.charges)
  }

  /** Every refund counts as booked or as not booked. */
  lemma BookedAndUnbooked(w: World, id: string)
    ensures Sum(w.stripe.refunds, RefundsOf(id)) ==
            Sum(w.stripe.refunds, BookedRefundsOf(id, w.booked))
              + Sum(w.stripe.refunds, UnbookedRefundsOf(id, w.booked))
  {
    SumLinear(w.stripe.refunds, BookedRefundsOf(id, w.booked), UnbookedRefundsOf(id, w.booked), RefundsOf(id));
  }

  /** For one intent the two sides of the day are the same exactly when it is settled, or neither
      side knows of a payment. */
  lemma SameMeansSettled(w: World, day: Day, id: string)
    requires WorldInv(w, day)
    ensures SameAt(StripeNet(w.stripe), InternalByIntent(w.db, day.start, day.end), id)
            <==>
            (id in w.stripe.charges ==> SettledIntent(w, id))
            && (SucceededRow(w.db.books, id) ==> id in w.stripe.charges)
  {
    var internal := InternalByIntent(w.db, day.start, day.end);
    InternalSideOfDay(w.db, day);
    BookedAndUnbooked(w, id);
    if id in internal {
      var i: nat :| LocalIntent(w.db.books, i, id) && w.db.books.intents[i].status == Succeeded;
      assert id in w.stripe.charges && internal[id] == StripeNet(w.stripe)[id] ==> SettledAt(w, i, id);
    }
  }

  lemma CleanMeansSettled(w: World, day: Day)
    requires WorldInv(w, day)
    ensures DayReport(w, day).mismatches == [] <==> Settled(w)
    ensures Settled(w) ==> DayReport(w, day).totalStripe == DayReport(w, day).totalInternal
  {
    StripeSideOfDay(w.stripe, day);
    var stripe, internal := StripeNet(w.stripe), InternalByIntent(w.db, day.start, day.end);
    CleanReport(stripe, internal);
    if stripe == internal {
      forall id
        ensures id in w.stripe.charges ==> SettledIntent(w, id)
        ensures SucceededRow(w.db.books, id) ==> id in w.stripe.charges {
        SameMeansSettled(w, day, id);
      }
    }
    if Settled(w) {
      forall id ensures SameAt(stripe, internal, id) {
        SameMeansSettled(w, day, id);
      }
      SameEverywhere(stripe, internal);
    }
  }

  /** End to end. After any run of the gateway against Stripe within a day, with any replies,
      rejections, crashes, duplicated, broken and early deliveries, keys used over, and charges and refunds
      the gateway knows nothing of, reconciling the day reports nothing exactly when everything is
      settled; and then the two totals are equal. */
  lemma ReconciliationIsCleanIffSettled(moves: seq<Move>, day: Day)
    requires AllowedAll(START, moves, day)
    ensures var w := Play(START, moves);
            var r := DayReport(w, day);
            && (r.mismatches == [] <==> Settled(w))
            && (Settled(w) ==> r.totalStripe == r.totalInternal)
  {
    ReachableWorld(moves, day);
    CleanMeansSettled(Play(START, moves), day);
  }

  /** The charge is captured here, and its refunds are booked on balance: one booked twice makes up for
      one of the same amount not booked. */
  ghost predicate CapturedAndBalanced(w: World, id: string) {
    SucceededRow(w.db.books, id) && Sum(w.stripe.refunds, UnbookedRefundsOf(id, w.booked)) == 0
  }

  /** Where SUCCEEDED means captured, the report is clean exactly when every charge is captured and its
      refunds are booked on balance. */
  lemma CleanMeansCapturedAndBalanced(w: World, day: Day)
    requires WorldInv(w, day) && SucceededAreCaptured(w.db.books)
    ensures DayReport(w, day).mismatches == [] <==> forall id :: id in w.stripe.charges ==> CapturedAndBalanced(w, id)
  {
    CleanMeansSettled(w, day);
    forall id | id in w.stripe.charges ensures SettledIntent(w, id) <==> CapturedAndBalanced(w, id) {
      if SucceededRow(w.db.books, id) {
        var i: nat :| LocalIntent(w.db.books, i, id) && w.db.books.intents[i].status == Succeeded;
        assert w.db.books.intents[i].received == w.stripe.charges[id];
        assert CapturedAndBalanced(w, id) ==> SettledAt(w, i, id);
      }
    }
    forall id | SucceededRow(w.db.books, id) ensures id in w.stripe.charges {
      var i: nat :| LocalIntent(w.db.books, i, id) && w.db.books.intents[i].status == Succeeded;
      assert w.db.books.intents[i].received > 0;
    }
  }

  // ---------------------------------------------- reconciling any window

  /** Stripe made a charge or refund of the intent within the window. */
  ghost predicate Moved(st: Stripe, window: Day, id: string) {
    id in KeySet(st.transactions, MovementIn(window))
  }

  /** A charge or refund of the intent outside the window. */
  function OutsideOf(window: Day, id: string): BT -> int {
    (bt: BT) => if !Within(window, bt.created) && MovementOf(bt) == Some(id) then bt.amount else 0
  }

  /** What moved outside the window and the refunds not booked make up for what was not captured. */
  ghost predicate NothingElsewhere(w: World, window: Day, i: nat, id: string) {
    && i < |w.db.books.intents| && id in w.stripe.charges
    && Sum(w.stripe.transactions, OutsideOf(window, id)) + Sum(w.stripe.refunds, UnbookedRefundsOf(id, w.booked))
       == w.stripe.charges[id] - w.db.books.intents[i].received
  }

  ghost predicate CleanIn(w: World, window: Day, id: string) {
    && (Moved(w.stripe, window, id) <==> Touched(w.db, window, id))
    && (forall i: nat :: TouchedAt(w.db, window, i, id) ==> NothingElsewhere(w, window, i, id))
  }

  /** The row's net amount is what moved within the window, plus what moved outside it, plus the
      refunds not booked, less what was not captured. */
  lemma NetOfRow(w: World, span: Day, window: Day, i: nat, id: string)
    requires WorldInv(w, span) && LocalIntent(w.db.books, i, id) && id in w.stripe.charges
    ensures w.db.books.intents[i].Refundable() ==
            Sum(w.stripe.transactions, Restrict(MovementIn(window), BtAmount, id))
            + Sum(w.stripe.transactions, OutsideOf(window, id))
            + Sum(w.stripe.refunds, UnbookedRefundsOf(id, w.booked))
            - (w.stripe.charges[id] - w.db.books.intents[i].received)
  {
    var ts := w.stripe.transactions;
    BookedAndUnbooked(w, id);
    SumLinear(ts, Restrict(MovementIn(window), BtAmount, id), OutsideOf(window, id),
              Restrict(MovementOf, BtAmount, id));
    assert id in StripeNet(w.stripe) && GroupMap(ts, MovementOf, BtAmount)[id] == StripeNet(w.stripe)[id];
  }

  lemma MovedMeansCharged(w: World, span: Day, window: Day, id: string)
    requires WorldInv(w, span) && Moved(w.stripe, window, id)
    ensures id in w.stripe.charges
  {
    var ts := w.stripe.transactions;
    var k :| 0 <= k < |ts| && MovementIn(window)(ts[k]).Some? && MovementIn(window)(ts[k]).value == id;
    assert MovementOf(ts[k]).value == id;
    assert id in GroupMap(ts, MovementOf, BtAmount);
  }

  lemma SameMeansClean(w: World, span: Day, window: Day, id: string)
    requires WorldInv(w, span)
    ensures CleanIn(w, window, id) <==>
            SameAt(GroupMap(w.stripe.transactions, MovementIn(window), BtAmount),
                   InternalByIntent(w.db, window.start, window.end), id)
  {
    InternalSideOfWindow(w.db, window);
    if Moved(w.stripe, window, id) && Touched(w.db, window, id) {
      MovedMeansCharged(w, span, window, id);
      forall i: nat | TouchedAt(w.db, window, i, id)
        ensures NothingElsewhere(w, window, i, id) <==>
                w.db.books.intents[i].Refundable() ==
                  Sum(w.stripe.transactions, Restrict(MovementIn(window), BtAmount, id)) {
        NetOfRow(w, span, window, i, id);
      }
    }
  }

  /** Reconciling any window of any run, over however many days it goes, reports an intent exactly
      when: Stripe moved money of it within the window and its row was not updated there to
      succeeded, or the other way round; or both, and its movements outside the window and
      its refunds not booked do not make up for what was not captured. */
  lemma WindowReports(moves: seq<Move>, span: Day, window: Day, id: string)
    requires AllowedAll(START, moves, span)
    ensures Reports(DayReport(Play(START, moves), window), id) <==> !CleanIn(Play(START, moves), window, id)
  {
    var w := Play(START, moves);
    ReachableWorld(moves, span);
    StripeSideOfWindow(w.stripe.transactions, window);
    SameMeansClean(w, span, window, id);
    ReportNames(GroupMap(w.stripe.transactions, MovementIn(window), BtAmount),
                InternalByIntent(w.db, window.start, window.end), id);
  }

  /** A payment that is settled is reported all the same exactly when, within the window, its row was
      updated and no money moved, or the other way round, as when it is charged before midnight and
      captured after; or when both happened and what moved outside the window does not come to
      nothing, as when it is refunded on another day. */
  lemma SettledPaymentIsReported(moves: seq<Move>, span: Day, window: Day, id: string)
    requires AllowedAll(START, moves, span) && SettledIntent(Play(START, moves), id)
    ensures var w := Play(START, moves);
            Reports(DayReport(w, window), id) <==>
              || (Moved(w.stripe, window, id) <==> !Touched(w.db, window, id))
              || (Moved(w.stripe, window, id) && Sum(w.stripe.transactions, OutsideOf(window, id)) != 0)
  {
    ReachableWorld(moves, span);
    WindowReports(moves, span, window, id);
    SettledIsCleanWhere(Play(START, moves), window, id);
  }

  lemma SettledIsCleanWhere(w: World, window: Day, id: string)
    requires UniqueIntents(w.db.books) && SettledIntent(w, id)
    ensures CleanIn(w, window, id) <==>
            && (Moved(w.stripe, window, id) <==> Touched(w.db, window, id))
            && (Moved(w.stripe, window, id) ==> Sum(w.stripe.transactions, OutsideOf(window, id)) == 0)
  {
    var i: nat :| SettledAt(w, i, id);
    assert forall k: nat :: TouchedAt(w.db, window, k, id) ==> k == i;
    assert NothingElsewhere(w, window, i, id) <==> Sum(w.stripe.transactions, OutsideOf(window, id)) == 0;
    if Touched(w.db, window, id) {
      assert TouchedAt(w.db, window, i, id);
    }
  }

  /** Local and Stripe refund totals differ by the refunds not booked, less those booked more than
      once, in every state of every run. */
  lemma RefundTotalsAgree(moves: seq<Move>, day: Day, i: nat, id: string)
    requires AllowedAll(START, moves, day) && LocalIntent(Play(START, moves).db.books, i, id)
    ensures var w := Play(START, moves);
            Sum(w.stripe.refunds, RefundsOf(id)) ==
            w.db.books.intents[i].refunded + Sum(w.stripe.refunds, UnbookedRefundsOf(id, w.booked))
  {
    var w := Play(START, moves);
    ReachableWorld(moves, day);
    assert LocalIntent(w.db.books, i, id);
    BookedAndUnbooked(w, id);
  }
}
