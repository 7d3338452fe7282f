/** Which deliveries capture, how refunds that Stripe has made are booked after all, and that this
    settles the books. */
module CatchUp {
  import opened Common
  import opened Ledger
  import opened Books
  import opened Operations
  import opened Runs
  import opened Lifecycle
  import opened Webhooks
  import opened Reconciliation
  import opened StripePeer
  import opened EndToEnd

  // ---------------------------------------------------------------- captures

  /** A delivery that gets through, of a succeeded event not processed before, for an intent whose
      row exists by then and has not succeeded. */
  ghost predicate Capturing(w: World, m: Move, id: string) {
    && m.Notify? && Effective(m.delivery) && !Processed(w.db, m.delivery.event.id)
    && IsSuccess(m.delivery.event) && m.delivery.event.obj.id == Some(id)
    && exists i: nat :: LocalIntent(w.db.books, i, id) && w.db.books.intents[i].status != Succeeded
  }

  ghost predicate CapturedDuring(w: World, moves: seq<Move>, id: string)
    decreases moves
  {
    moves != [] && (Capturing(w, moves[0], id) || CapturedDuring(Next(w, moves[0]), moves[1..], id))
  }

  lemma CapturingReceives(w: World, m: Move, day: Day, id: string)
    requires WorldInv(w, day) && Allowed(w, m, day) && Capturing(w, m, id)
    ensures HasReceived(Next(w, m).db.books, id)
  {
    var i: nat :| LocalIntent(w.db.books, i, id) && w.db.books.intents[i].status != Succeeded;
    var e := m.delivery.event;
    DeliverBooks(w.db, m.delivery);
    CaptureDispatches(w.db.books, e, i);
    MoveAdvances(w, m, i);
    assert LocalIntent(Next(w, m).db.books, i, id);
  }

  lemma ReceivedStays(w: World, m: Move, id: string)
    requires Inv(w.db.books) && HasReceived(w.db.books, id)
    ensures HasReceived(Next(w, m).db.books, id)
  {
    var i: nat :| LocalIntent(w.db.books, i, id) && w.db.books.intents[i].received > 0;
    MoveAdvances(w, m, i);
    assert LocalIntent(Next(w, m).db.books, i, id);
  }

  lemma ReceivedByCapturing(w: World, m: Move, day: Day, id: string)
    requires Inv(w.db.books) && Allowed(w, m, day) && !HasReceived(w.db.books, id)
             && HasReceived(Next(w, m).db.books, id)
    ensures Capturing(w, m, id)
  {
    MoveIsItsAction(w, m);
    var a := ActionOf(w, m).value;
    var i: nat :| LocalIntent(Next(w, m).db.books, i, id) && Next(w, m).db.books.intents[i].received > 0;
    StepRows(w.db, a);
    assert LocalIntent(w.db.books, i, id);
    StepReceives(w.db, a, i);
    StepAdvances(w.db, a, i);
    assert w.db.books.intents[i].status != Succeeded;
    WebhooksAreNotified(w, m);
    DeliverBooks(w.db, a.delivery);
  }

  lemma WebhooksAreNotified(w: World, m: Move)
    requires ActionOf(w, m).Some? && ActionOf(w, m).value.Webhook? && !m.Local?
    ensures m.Notify? && ActionOf(w, m).value.delivery == m.delivery
  {
  }

  /** After any run an intent has received money if and only if it had before, or some delivery of the
      run captured it: one that got through, of a new succeeded event, while the row was waiting. */
  lemma {:induction false} ReceivedIffCaptured(w: World, moves: seq<Move>, day: Day, id: string)
    requires WorldInv(w, day) && AllowedAll(w, moves, day)
    ensures HasReceived(Play(w, moves).db.books, id) <==> HasReceived(w.db.books, id) || CapturedDuring(w, moves, id)
    decreases moves
  {
    if moves != [] {
      var m := moves[0];
      if HasReceived(w.db.books, id) {
        ReceivedStays(w, m, id);
      } else if Capturing(w, m, id) {
        CapturingReceives(w, m, day, id);
      } else if HasReceived(Next(w, m).db.books, id) {
        ReceivedByCapturing(w, m, day, id);
      }
      MoveInv(w, m, day);
      ReceivedIffCaptured(Next(w, m), moves[1..], day, id);
    }
  }

  /** Every refund Stripe has made is booked, and once. */
  ghost predicate AllBookedOnce(w: World) {
    forall r :: r in w.stripe.refunds ==> w.booked[r.key] == 1
  }

  /** When no reply of `succeeded` reached a row and every refund is booked once, the report of the day
      is empty if and only if every charge was captured by a delivery of the run. */
  lemma DeliveringEverythingSettles(moves: seq<Move>, day: Day)
    requires AllowedAll(START, moves, day)
    requires !SomeSetByReply(START.db, ActionsOf(START, moves)) && AllBookedOnce(Play(START, moves))
    ensures var w := Play(START, moves);
            DayReport(w, day).mismatches == [] <==>
              forall id :: id in w.stripe.charges ==> CapturedDuring(START, moves, id)
  {
    var w := Play(START, moves);
    ReachableWorld(moves, day);
    StartInv(day);
    PlayIsRun(START, moves);
    CapturesComeFromWebhooks(START.db, ActionsOf(START, moves));
    CleanMeansCapturedAndBalanced(w, day);
    forall id ensures CapturedAndBalanced(w, id) <==> CapturedDuring(START, moves, id) {
      ReceivedIffCaptured(START, moves, day, id);
      BookedOnceMeansBooked(w, id);
      ReceivedMeansSucceeded(w.db.books, id);
    }
  }

  lemma BookedOnceMeansBooked(w: World, id: string)
    requires AllBookedOnce(w)
    ensures Sum(w.stripe.refunds, UnbookedRefundsOf(id, w.booked)) == 0
  {
    SumZero(w.stripe.refunds, UnbookedRefundsOf(id, w.booked));
  }

  lemma ReceivedMeansSucceeded(b: Books, id: string)
    requires Inv(b) && SucceededAreCaptured(b)
    ensures HasReceived(b, id) <==> SucceededRow(b, id)
  {
    forall i: nat | LocalIntent(b, i, id) ensures b.intents[i].received > 0 <==> b.intents[i].status == Succeeded {
      assert IntentOk(b, i);
    }
  }

  // ----------------------------------------------------------------- refunds

  lemma {:induction false} SumNotNegative<T>(xs: seq<T>, w: T -> int)
    requires forall x :: x in xs ==> w(x) >= 0
    ensures Sum(xs, w) >= 0
    ensures forall x :: x in xs ==> w(x) <= Sum(xs, w)
  {
    if xs != [] {
      var n := |xs| - 1;
      SumNotNegative(xs[..n], w);
      assert xs == xs[..n] + [xs[n]];
    }
  }

  ghost predicate NoneBookedTwice(w: World) {
    forall key :: w.booked[key] <= 1
  }

  /** A refund not booked yet is within what its captured row can still refund. */
  lemma UnbookedIsRefundable(w: World, day: Day, k: nat, i: nat)
    requires WorldInv(w, day) && NoneBookedTwice(w) && k < |w.stripe.refunds|
    requires w.stripe.refunds[k].key !in w.booked
    requires LocalIntent(w.db.books, i, w.stripe.refunds[k].intent) && w.db.books.intents[i].received > 0
    ensures 0 < w.stripe.refunds[k].amount <= w.db.books.intents[i].Refundable()
  {
    BookedAndUnbooked(w, w.stripe.refunds[k].intent);
    UnbookedAddsUp(w, k);
  }

  lemma UnbookedWeight(r: RefundRecord, id: string, booked: multiset<string>)
    requires booked[r.key] <= 1
    ensures UnbookedRefundsOf(id, booked)(r) == if r.intent == id && booked[r.key] == 0 then r.amount else 0
  {
    assert booked[r.key] == 0 || booked[r.key] == 1;
  }

  /** A refund not booked is part of what is not booked. */
  lemma UnbookedAddsUp(w: World, k: nat)
    requires RefundsRecorded(w.stripe) && NoneBookedTwice(w) && k < |w.stripe.refunds|
    requires w.stripe.refunds[k].key !in w.booked
    ensures 0 < w.stripe.refunds[k].amount <= Sum(w.stripe.refunds,
                                                  UnbookedRefundsOf(w.stripe.refunds[k].intent, w.booked))
  {
    var r := w.stripe.refunds[k];
    var unbooked := UnbookedRefundsOf(r.intent, w.booked);
    forall x | x in w.stripe.refunds ensures unbooked(x) >= 0 {
      var l :| 0 <= l < |w.stripe.refunds| && w.stripe.refunds[l] == x;
      UnbookedWeight(x, r.intent, w.booked);
    }
    SumNotNegative(w.stripe.refunds, unbooked);
    UnbookedWeight(r, r.intent, w.booked);
  }

  /** Where SUCCEEDED means captured and nothing is booked twice, the report is clean exactly when every
      charge is captured and every refund is booked, once. */
  lemma CleanMeansCapturedAndBooked(w: World, day: Day)
    requires WorldInv(w, day) && SucceededAreCaptured(w.db.books) && NoneBookedTwice(w)
    ensures DayReport(w, day).mismatches == [] <==>
            (forall id :: id in w.stripe.charges ==> SucceededRow(w.db.books, id)) && AllBookedOnce(w)
  {
    CleanMeansCapturedAndBalanced(w, day);
    if forall id :: id in w.stripe.charges ==> CapturedAndBalanced(w, id) {
      forall r | r in w.stripe.refunds ensures w.booked[r.key] == 1 {
        var k :| 0 <= k < |w.stripe.refunds| && w.stripe.refunds[k] == r;
        BalancedIsBooked(w, k);
      }
    }
    if AllBookedOnce(w) {
      forall id ensures Sum(w.stripe.refunds, UnbookedRefundsOf(id, w.booked)) == 0 {
        BookedOnceMeansBooked(w, id);
      }
    }
  }

  lemma BalancedIsBooked(w: World, k: nat)
    requires RefundsRecorded(w.stripe) && NoneBookedTwice(w) && k < |w.stripe.refunds|
    requires forall id :: id in w.stripe.charges ==> CapturedAndBalanced(w, id)
    ensures w.booked[w.stripe.refunds[k].key] == 1
  {
    var r := w.stripe.refunds[k];
    assert r.intent in w.stripe.charges && CapturedAndBalanced(w, r.intent);
    if r.key !in w.booked {
      UnbookedAddsUp(w, k);
    }
  }

  function RetryOf(r: RefundRecord, i: nat, btId: string, now: Time): Move {
    RefundAt(i, Some(r.amount), r.key, StripeError, btId, now, 1)
  }

  /** In every state of every run, asking again for a refund that Stripe has made, with its own key
      and amount, books it exactly when the captured row has as much left; it always has as long as
      nothing was booked twice and this refund not at all. Stripe pays nothing again. */
  lemma RefundCanBeBooked(w: World, day: Day, k: nat, i: nat, btId: string, now: Time)
    requires WorldInv(w, day) && k < |w.stripe.refunds| && w.stripe.refunds[k].intent != ""
    requires LocalIntent(w.db.books, i, w.stripe.refunds[k].intent) && w.db.books.intents[i].received > 0
    ensures var r := w.stripe.refunds[k];
            var w' := Next(w, RetryOf(r, i, btId, now));
            && w'.stripe == w.stripe
            && (if r.amount <= w.db.books.intents[i].Refundable()
                then w'.booked == w.booked + multiset{r.key}
                     && w'.db.books == BookRefund(w.db.books, i, r.amount, w.stripe.answers[r.key].reply.id)
                else w' == w)
            && (NoneBookedTwice(w) && r.key !in w.booked ==> r.amount <= w.db.books.intents[i].Refundable())
  {
    var r := w.stripe.refunds[k];
    assert IntentOk(w.db.books, i);
    RefundUnderKnownKey(w, i, r.amount, Some(r.amount), r.key, StripeError, btId, now, 1);
    if NoneBookedTwice(w) && r.key !in w.booked {
      UnbookedIsRefundable(w, day, k, i);
    }
  }

  ghost predicate RefundableAt(w: World, k: nat, i: nat)
    requires k < |w.stripe.refunds|
  {
    LocalIntent(w.db.books, i, w.stripe.refunds[k].intent) && w.db.books.intents[i].received > 0
  }

  /** Every refund not booked yet belongs to a captured row. */
  ghost predicate CanCatchUp(w: World) {
    forall k :: 0 <= k < |w.stripe.refunds| && w.stripe.refunds[k].key !in w.booked ==>
      w.stripe.refunds[k].intent != "" && exists i: nat :: RefundableAt(w, k, i)
  }

  ghost function UnbookedKeys(w: World): set<string> {
    set k | 0 <= k < |w.stripe.refunds| && w.stripe.refunds[k].key !in w.booked :: w.stripe.refunds[k].key
  }

  /** Nothing was booked twice, captured rows are as they should be, and what is unbooked is theirs. */
  ghost predicate Ready(w: World, day: Day) {
    WorldInv(w, day) && NoneBookedTwice(w) && CanCatchUp(w) && SucceededAreCaptured(w.db.books)
  }

  /** Captured rows stay captured from one world to the next. */
  ghost predicate KeepsReceived(w: World, w': World) {
    forall id :: HasReceived(w.db.books, id) ==> HasReceived(w'.db.books, id)
  }

  lemma RefundKeepsRows(b: Books, i: nat, n: int, refundId: string)
    requires Inv(b) && i < |b.intents| && SucceededAreCaptured(b)
    ensures var b' := BookRefund(b, i, n, refundId);
            && SucceededAreCaptured(b')
            && forall id, j: nat :: LocalIntent(b, j, id) ==>
               LocalIntent(b', j, id) && b'.intents[j].received == b.intents[j].received
  {
  }

  lemma StillCanCatchUp(w: World, w': World)
    requires CanCatchUp(w) && w'.stripe == w.stripe && w.booked <= w'.booked
    requires forall id, j: nat :: LocalIntent(w.db.books, j, id) ==>
               LocalIntent(w'.db.books, j, id) && w'.db.books.intents[j].received == w.db.books.intents[j].received
    ensures CanCatchUp(w') && KeepsReceived(w, w')
  {
    forall l | 0 <= l < |w'.stripe.refunds| && w'.stripe.refunds[l].key !in w'.booked
      ensures w'.stripe.refunds[l].intent != "" && exists j: nat :: RefundableAt(w', l, j) {
      var j: nat :| RefundableAt(w, l, j);
      assert RefundableAt(w', l, j);
    }
    forall id | HasReceived(w.db.books, id) ensures HasReceived(w'.db.books, id) {
      var i: nat :| LocalIntent(w.db.books, i, id) && w.db.books.intents[i].received > 0;
      assert LocalIntent(w'.db.books, i, id);
    }
  }

  lemma OneKeyFewer(w: World, w': World, key: string)
    requires w'.stripe == w.stripe && w'.booked == w.booked + multiset{key} && NoneBookedTwice(w) && key !in w.booked
    ensures NoneBookedTwice(w') && UnbookedKeys(w') == UnbookedKeys(w) - {key}
  {
  }

  /** One retry: the same Stripe, one key fewer to book, and captured rows stay captured. */
  lemma OneRetry(w: World, day: Day, k: nat, i: nat, btId: string, now: Time)
    requires Ready(w, day) && FreshTransaction(w, btId) && Within(day, now)
    requires k < |w.stripe.refunds| && w.stripe.refunds[k].key !in w.booked && RefundableAt(w, k, i)
    ensures var m := RetryOf(w.stripe.refunds[k], i, btId, now);
            var w' := Next(w, m);
            && Allowed(w, m, day) && Ready(w', day) && w'.stripe == w.stripe && KeepsReceived(w, w')
            && UnbookedKeys(w') == UnbookedKeys(w) - {w.stripe.refunds[k].key}
  {
    var r := w.stripe.refunds[k];
    var m := RetryOf(r, i, btId, now);
    var w' := Next(w, m);
    RefundCanBeBooked(w, day, k, i, btId, now);
    MoveInv(w, m, day);
    RefundKeepsRows(w.db.books, i, r.amount, w.stripe.answers[r.key].reply.id);
    StillCanCatchUp(w, w');
    OneKeyFewer(w, w', r.key);
  }

  lemma NothingUnbooked(w: World, day: Day)
    requires Ready(w, day) && UnbookedKeys(w) == {}
    ensures AllBookedOnce(w)
  {
    forall r | r in w.stripe.refunds ensures w.booked[r.key] == 1 {
      var k :| 0 <= k < |w.stripe.refunds| && w.stripe.refunds[k] == r;
      assert r.key in w.booked || r.key in UnbookedKeys(w);
    }
  }

  lemma PlayOneMore(w: World, m: Move, rest: seq<Move>, day: Day)
    requires Allowed(w, m, day) && AllowedAll(Next(w, m), rest, day)
    ensures AllowedAll(w, [m] + rest, day) && Play(w, [m] + rest) == Play(Next(w, m), rest)
  {
    assert ([m] + rest)[1..] == rest;
  }

  lemma NextRetry(w: World, day: Day, btId: string, now: Time) returns (m: Move)
    requires Ready(w, day) && FreshTransaction(w, btId) && Within(day, now) && UnbookedKeys(w) != {}
    ensures var w' := Next(w, m);
            && Allowed(w, m, day) && Ready(w', day) && w'.stripe == w.stripe && KeepsReceived(w, w')
            && |UnbookedKeys(w')| < |UnbookedKeys(w)|
  {
    var k, i := SomeUnbooked(w);
    m := RetryOf(w.stripe.refunds[k], i, btId, now);
    OneRetry(w, day, k, i, btId, now);
    FewerLeft(UnbookedKeys(w), w.stripe.refunds[k].key);
  }

  lemma SomeUnbooked(w: World) returns (k: nat, i: nat)
    requires CanCatchUp(w) && UnbookedKeys(w) != {}
    ensures k < |w.stripe.refunds| && w.stripe.refunds[k].key !in w.booked && RefundableAt(w, k, i)
    ensures w.stripe.refunds[k].key in UnbookedKeys(w)
  {
    var key :| key in UnbookedKeys(w);
    k :| 0 <= k < |w.stripe.refunds| && w.stripe.refunds[k].key !in w.booked && w.stripe.refunds[k].key == key;
    i :| RefundableAt(w, k, i);
  }

  lemma FewerLeft(keys: set<string>, key: string)
    requires key in keys
    ensures |keys - {key}| < |keys|
  {
  }

  lemma KeepsReceivedFurther(w: World, w1: World, w2: World)
    requires KeepsReceived(w, w1) && KeepsReceived(w1, w2)
    ensures KeepsReceived(w, w2)
  {
  }

  /** Whatever is unbooked can be booked by retries alone. */
  lemma RefundsCanCatchUp(w: World, day: Day, btId: string, now: Time) returns (retries: seq<Move>)
    requires Ready(w, day) && FreshTransaction(w, btId) && Within(day, now)
    ensures AllowedAll(w, retries, day)
    ensures var w' := Play(w, retries);
            Ready(w', day) && w'.stripe == w.stripe && AllBookedOnce(w') && KeepsReceived(w, w')
    decreases |UnbookedKeys(w)|
  {
    if UnbookedKeys(w) == {} {
      NothingUnbooked(w, day);
      retries := [];
    } else {
      var m := NextRetry(w, day, btId, now);
      var rest := RefundsCanCatchUp(Next(w, m), day, btId, now);
      retries := [m] + rest;
      PlayOneMore(w, m, rest, day);
      KeepsReceivedFurther(w, Next(w, m), Play(Next(w, m), rest));
    }
  }

  /** From every state of every run in which the charges are captured and nothing was booked twice,
      however many refunds died on the way, retries alone lead to a state in which reconciling
      the day reports nothing. */
  lemma RetriesSettleTheDay(moves: seq<Move>, day: Day, btId: string, now: Time) returns (retries: seq<Move>)
    requires AllowedAll(START, moves, day)
    requires var w := Play(START, moves);
             && SucceededAreCaptured(w.db.books) && NoneBookedTwice(w) && FreshTransaction(w, btId) && Within(day, now)
             && forall id :: id in w.stripe.charges ==> id != "" && HasReceived(w.db.books, id)
    ensures var w := Play(START, moves);
            && AllowedAll(w, retries, day) && Play(w, retries).stripe == w.stripe
            && DayReport(Play(w, retries), day).mismatches == []
  {
    var w := Play(START, moves);
    ReachableWorld(moves, day);
    ChargesCanCatchUp(w, day);
    retries := RefundsCanCatchUp(w, day, btId, now);
    var w' := Play(w, retries);
    CleanMeansCapturedAndBalanced(w', day);
    forall id | id in w'.stripe.charges ensures CapturedAndBalanced(w', id) {
      BookedOnceMeansBooked(w', id);
      ReceivedMeansSucceeded(w'.db.books, id);
    }
  }

  lemma ChargesCanCatchUp(w: World, day: Day)
    requires WorldInv(w, day)
    requires forall id :: id in w.stripe.charges ==> id != "" && HasReceived(w.db.books, id)
    ensures CanCatchUp(w)
  {
    forall k | 0 <= k < |w.stripe.refunds|
      ensures w.stripe.refunds[k].intent != "" && exists i: nat :: RefundableAt(w, k, i) {
      var id := w.stripe.refunds[k].intent;
      assert HasReceived(w.db.books, id);
      var i: nat :| LocalIntent(w.db.books, i, id) && w.db.books.intents[i].received > 0;
      assert RefundableAt(w, k, i);
    }
  }
}
