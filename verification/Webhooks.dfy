/** Webhook deliveries are at-least-once, may fail and may be cut short; their effect on intents,
    ledger and sessions is that of delivering each event cleanly, once, in order. */
module Webhooks {
  import opened Common
  import opened Ledger
  import opened Books
  import opened Operations
  import opened Runs
  import opened Lifecycle

  function DeliverAll(db: Db, ds: seq<Delivery>): Db
    decreases ds
  {
    if ds == [] then db else DeliverAll(Deliver(db, ds[0]).0, ds[1..])
  }

  /** A delivery that nothing disturbs. */
  function Clean(e: Event, now: Time): Delivery {
    Delivery(e, Smooth, now, 2)
  }

  /** A delivery that gets past its first commit. Any other one leaves no trace on the books. */
  predicate Effective(d: Delivery) {
    d.glitch != EarlyGlitch && d.commits > 0
  }

  /** The events of the effective deliveries, each at its first occurrence, as clean deliveries. */
  function OnceEach(ds: seq<Delivery>, seen: set<string>): seq<Delivery> {
    if ds == [] then []
    else
      var d := ds[0];
      if Effective(d) && d.event.id !in seen then
        [Clean(d.event, d.now)] + OnceEach(ds[1..], seen + {d.event.id})
      else OnceEach(ds[1..], seen)
  }

  /** The books after dispatching an event to the end. */
  function BooksAfter(b: Books, e: Event): Books {
    match Dispatch(b, e)
    case Refused => b
    case Applied(b', _) => b'
  }

  lemma DeliverBooks(db: Db, d: Delivery)
    ensures Deliver(db, d).0.books ==
            if Effective(d) && !Processed(db, d.event.id) then BooksAfter(db.books, d.event) else db.books
    ensures forall id :: id != d.event.id || !Effective(d) ==> (Processed(Deliver(db, d).0, id) <==> Processed(db, id))
    ensures Processed(db, d.event.id) ==> Processed(Deliver(db, d).0, d.event.id)
  {
  }

  /** Dispatching an event a second time changes nothing. */
  ghost predicate Absorbed(b: Books, e: Event) {
    BooksAfter(b, e) == b
  }

  /** What a dispatch that changes the books has found and done. */
  lemma DispatchChange(b: Books, e: Event) returns (i: nat)
    requires Inv(b) && BooksAfter(b, e) != b
    ensures i < |b.intents| && e.kind == SUCCEEDED_EVENT && e.obj.id.Some? && EventAmount(e.obj).Some?
    ensures b.intents[i].stripeId == e.obj.id
    ensures var after := BooksAfter(b, e);
            && |after.intents| == |b.intents| && after.intents[i].status == Succeeded
            && (forall j :: 0 <= j < |b.intents| && j != i ==> after.intents[j] == b.intents[j])
            && after.intents[i].stripeId == b.intents[i].stripeId
            && (b.intents[i].status == Succeeded ==> after.intents[i] == b.intents[i])
            && |after.sessions| == |b.sessions|
            && forall s :: 0 <= s < |b.sessions| ==>
                 after.sessions[s] ==
                   if b.sessions[s].intent == Some(i) then b.sessions[s].(status := Completed) else b.sessions[s]
  {
    var found := One(b.intents, StripeIdIs(e.obj.id.value));
    i := found.row;
    var b1 := ApplySucceeded(b, i, EventAmount(e.obj).value).value;
    var session := One(b1.sessions, SessionOf(i));
    assert b1.sessions == b.sessions;
    if session.NoRow? {
      assert forall s :: 0 <= s < |b.sessions| ==> !SessionOf(i)(b1.sessions[s]);
    } else {
      assert SessionOf(i)(b1.sessions[session.row]);
      assert forall s :: 0 <= s < |b.sessions| && SessionOf(i)(b1.sessions[s]) ==> s == session.row;
    }
  }

  /** For a succeeded event whose intent exists, being absorbed means: the intent has succeeded and
      its session, if it has one, is completed; or the event's amount is refused. */
  lemma AbsorbedMeans(b: Books, e: Event, i: nat)
    requires Inv(b) && i < |b.intents| && e.kind == SUCCEEDED_EVENT && e.obj.id.Some? && EventAmount(e.obj).Some?
    requires b.intents[i].stripeId == e.obj.id
    ensures Absorbed(b, e) <==>
            if b.intents[i].status == Succeeded then
              forall s :: 0 <= s < |b.sessions| && b.sessions[s].intent == Some(i) ==> b.sessions[s].status == Completed
            else EventAmount(e.obj).value <= 0
  {
    IntentLookup(b, i, e.obj.id.value);
    SessionLookup(b, i);
    if b.intents[i].status == Succeeded {
      var session := One(b.sessions, SessionOf(i));
      if session.NoRow? {
        assert forall s :: 0 <= s < |b.sessions| ==> !SessionOf(i)(b.sessions[s]);
      } else {
        assert SessionOf(i)(b.sessions[session.row]);
        assert forall s :: 0 <= s < |b.sessions| && SessionOf(i)(b.sessions[s]) ==> s == session.row;
        if b.sessions[session.row].status != Completed {
          assert BooksAfter(b, e).sessions[session.row].status == Completed;
        }
      }
    } else if EventAmount(e.obj).value > 0 {
      CaptureDispatches(b, e, i);
    }
  }

  /** A positive amount for an intent that has not succeeded is captured. */
  lemma CaptureDispatches(b: Books, e: Event, i: nat)
    requires Inv(b) && i < |b.intents| && e.kind == SUCCEEDED_EVENT && e.obj.id.Some? && EventAmount(e.obj).Some?
    requires b.intents[i].stripeId == e.obj.id && b.intents[i].status != Succeeded && EventAmount(e.obj).value > 0
    ensures Dispatch(b, e).Applied?
    ensures var after := BooksAfter(b, e);
            && i < |after.intents| && after.intents[i].status == Succeeded
            && after.intents[i].received == EventAmount(e.obj).value
  {
    IntentLookup(b, i, e.obj.id.value);
    SessionLookup(b, i);
  }

  lemma DispatchTwice(b: Books, e: Event)
    requires Inv(b)
    ensures Absorbed(BooksAfter(b, e), e)
  {
    if BooksAfter(b, e) != b {
      var i := DispatchChange(b, e);
      DispatchInv(b, e);
      AbsorbedMeans(BooksAfter(b, e), e, i);
    }
  }

  /** An absorbed event stays absorbed whatever other event is dispatched. */
  lemma StaysAbsorbed(b: Books, e: Event, f: Event)
    requires Inv(b) && Absorbed(b, e)
    ensures Absorbed(BooksAfter(b, f), e)
  {
    var after := BooksAfter(b, f);
    DispatchInv(b, f);
    if after != b && !Absorbed(after, e) {
      var j := DispatchChange(b, f);
      var i := DispatchChange(after, e);
      AbsorbedMeans(after, e, i);
      AbsorbedMeans(b, e, i);
    }
  }

  /** One id, one payload: what Stripe promises about event ids. */
  ghost predicate Consistent(ds: seq<Delivery>) {
    forall i, j :: 0 <= i < |ds| && 0 <= j < |ds| && ds[i].event.id == ds[j].event.id ==> ds[i].event == ds[j].event
  }

  /** The two runs agree on the books, and on what is processed among the events not seen yet;
      the events seen so far are over and done with in the first run. */
  ghost predicate InStep(full: Db, once: Db, seen: set<Event>) {
    && full.books == once.books
    && (forall id :: (forall e :: e in seen ==> e.id != id) ==> (Processed(full, id) <==> Processed(once, id)))
    && (forall e :: e in seen ==> Processed(full, e.id) || Absorbed(full.books, e))
  }

  ghost function Ids(seen: set<Event>): set<string> {
    set e | e in seen :: e.id
  }

  lemma SeenStaySettled(full: Db, seen: set<Event>, d: Delivery)
    requires Inv(full.books)
    requires forall e :: e in seen ==> Processed(full, e.id) || Absorbed(full.books, e)
    ensures var full' := Deliver(full, d).0;
            && (forall e :: e in seen ==> Processed(full', e.id) || Absorbed(full'.books, e))
            && (Effective(d) ==> Processed(full', d.event.id) || Absorbed(full'.books, d.event))
  {
    var full' := Deliver(full, d).0;
    DeliverBooks(full, d);
    DispatchTwice(full.books, d.event);
    forall e | e in seen ensures Processed(full', e.id) || Absorbed(full'.books, e) {
      DeliveryKeepsProcessed(full, d, e.id);
      if !Processed(full, e.id) { StaysAbsorbed(full.books, e, d.event); }
    }
  }

  lemma DeliveryKeepsProcessed(db: Db, d: Delivery, id: string)
    ensures Processed(db, id) ==> Processed(Deliver(db, d).0, id)
  {
    DeliverBooks(db, d);
  }

  /** An event seen for the first time: both runs deliver it. */
  lemma InStepFirst(full: Db, once: Db, seen: set<Event>, d: Delivery)
    requires Inv(full.books) && InStep(full, once, seen) && Effective(d) && d.event.id !in Ids(seen)
    ensures InStep(Deliver(full, d).0, Deliver(once, Clean(d.event, d.now)).0, seen + {d.event})
  {
    var e := d.event;
    var full', once' := Deliver(full, d).0, Deliver(once, Clean(e, d.now)).0;
    DeliverBooks(full, d);
    DeliverBooks(once, Clean(e, d.now));
    SeenStaySettled(full, seen, d);
    assert forall x :: x in seen ==> x.id != e.id;
    assert Processed(full, e.id) <==> Processed(once, e.id);
    forall id | (forall x :: x in seen + {e} ==> x.id != id) ensures Processed(full', id) <==> Processed(once', id) {
      assert e in seen + {e};
      assert forall x :: x in seen ==> x in seen + {e};
    }
  }

  /** A repeated or lost delivery: only the first run sees it, and its books do not move. */
  lemma InStepAgain(full: Db, once: Db, seen: set<Event>, d: Delivery)
    requires Inv(full.books) && InStep(full, once, seen)
    requires !Effective(d) || d.event in seen
    ensures InStep(Deliver(full, d).0, once, seen)
  {
    var full' := Deliver(full, d).0;
    DeliverBooks(full, d);
    SeenStaySettled(full, seen, d);
    forall id | (forall y :: y in seen ==> y.id != id) ensures Processed(full', id) <==> Processed(once, id) {
      assert !Effective(d) || id != d.event.id;
    }
  }

  lemma InStepKept(full: Db, once: Db, seen: set<Event>, d: Delivery)
    requires Inv(full.books) && InStep(full, once, seen)
    requires forall e :: e in seen && e.id == d.event.id ==> e == d.event
    ensures var full' := Deliver(full, d).0;
            Inv(full'.books) &&
            if Effective(d) && d.event.id !in Ids(seen)
            then InStep(full', Deliver(once, Clean(d.event, d.now)).0, seen + {d.event})
            else InStep(full', once, seen)
  {
    StepInv(full, Webhook(d));
    if Effective(d) && d.event.id !in Ids(seen) {
      InStepFirst(full, once, seen, d);
    } else {
      InStepAgain(full, once, seen, d);
    }
  }

  lemma {:induction false} OnceEachSimulates(full: Db, once: Db, ds: seq<Delivery>, seen: set<Event>)
    requires Inv(full.books) && InStep(full, once, seen) && Consistent(ds)
    requires forall e, i :: e in seen && 0 <= i < |ds| && ds[i].event.id == e.id ==> ds[i].event == e
    ensures DeliverAll(full, ds).books == DeliverAll(once, OnceEach(ds, Ids(seen))).books
    decreases ds
  {
    if ds != [] {
      var d, rest := ds[0], ds[1..];
      InStepKept(full, once, seen, d);
      assert Consistent(rest) by {
        assert forall i :: 0 <= i < |rest| ==> rest[i] == ds[i + 1];
      }
      if Effective(d) && d.event.id !in Ids(seen) {
        var seen' := seen + {d.event};
        assert Ids(seen') == Ids(seen) + {d.event.id};
        var clean := Clean(d.event, d.now);
        OnceEachSimulates(Deliver(full, d).0, Deliver(once, clean).0, rest, seen');
        assert ([clean] + OnceEach(rest, Ids(seen')))[1..] == OnceEach(rest, Ids(seen'));
      } else {
        OnceEachSimulates(Deliver(full, d).0, once, rest, seen);
      }
    }
  }

  /** Replay insensitivity and convergence. From any state satisfying the invariant, any list of
      deliveries, repeated, refused, disturbed and cut short at will, leaves the intents, sessions
      and ledger of a run that delivers each event that got through cleanly and once. */
  lemma DeliveriesActOnce(db: Db, ds: seq<Delivery>)
    requires Inv(db.books) && Consistent(ds)
    ensures DeliverAll(db, ds).books == DeliverAll(db, OnceEach(ds, {})).books
  {
    assert Ids({}) == {};
    OnceEachSimulates(db, db, ds, {});
  }

  lemma {:induction false} OnlyOneLeft(ds: seq<Delivery>, e: Event, seen: set<string>)
    requires forall i :: 0 <= i < |ds| ==> ds[i].event == e
    ensures e.id in seen ==> OnceEach(ds, seen) == []
    ensures e.id !in seen && (exists i :: 0 <= i < |ds| && Effective(ds[i])) ==>
              exists now :: OnceEach(ds, seen) == [Clean(e, now)]
  {
    if ds != [] {
      assert forall i :: 0 <= i < |ds[1..]| ==> ds[1..][i] == ds[i + 1];
      if Effective(ds[0]) && e.id !in seen {
        OnlyOneLeft(ds[1..], e, seen + {e.id});
        assert OnceEach(ds, seen) == [Clean(e, ds[0].now)];
      } else {
        OnlyOneLeft(ds[1..], e, seen);
        if exists i :: 0 <= i < |ds| && Effective(ds[i]) && e.id !in seen {
          var i :| 0 <= i < |ds| && Effective(ds[i]);
          assert Effective(ds[1..][i - 1]);
        }
      }
    }
  }

  lemma CleanTimeIsIrrelevant(db: Db, e: Event, now: Time, then_: Time)
    ensures Deliver(db, Clean(e, now)).0.books == Deliver(db, Clean(e, then_)).0.books
  {
    DeliverBooks(db, Clean(e, now));
    DeliverBooks(db, Clean(e, then_));
  }

  /** Any number of broken deliveries of an event and then one that gets through: the books are
      those after a single clean delivery, including when an earlier one died between the commit
      of the session and the commit of `processed_at`. */
  lemma BrokenDeliveriesConverge(db: Db, broken: seq<Delivery>, last: Delivery, now: Time)
    requires Inv(db.books) && Effective(last)
    requires forall i :: 0 <= i < |broken| ==> broken[i].event == last.event
    ensures DeliverAll(db, broken + [last]).books == Deliver(db, Clean(last.event, now)).0.books
  {
    var ds, e := broken + [last], last.event;
    DeliveriesActOnce(db, ds);
    assert Effective(ds[|broken|]);
    OnlyOneLeft(ds, e, {});
    var t :| OnceEach(ds, {}) == [Clean(e, t)];
    assert DeliverAll(db, [Clean(e, t)]) == Deliver(db, Clean(e, t)).0;
    CleanTimeIsIrrelevant(db, e, now, t);
  }

  // --------------------------------------------------------- processed events

  lemma ActionsKeepProcessed(db: Db, a: Action, id: string)
    requires Processed(db, id)
    ensures Processed(Step(db, a), id)
  {
    match a
    case Webhook(d) => DeliverBooks(db, d);
    case _ =>
  }

  /** Once an event is processed it stays processed, and every later delivery of its id, after any
      run, is answered as a duplicate and changes nothing at all. */
  lemma {:induction false} ProcessedIsFinal(db: Db, actions: seq<Action>, d: Delivery)
    requires Processed(db, d.event.id)
    ensures Deliver(Run(db, actions), d) == (Run(db, actions), Done(Duplicate))
    decreases actions
  {
    if actions != [] {
      ActionsKeepProcessed(db, actions[0], d.event.id);
      ProcessedIsFinal(Step(db, actions[0]), actions[1..], d);
    }
  }

  /** A success reported before the gateway has a row for the intent is acknowledged without effect,
      and no later delivery of that event books it either, even once the row exists. */
  lemma EarlyEventIsLost(db: Db, e: Event, now: Time, actions: seq<Action>, d: Delivery)
    requires !Processed(db, e.id) && d.event == e
    requires e.kind == SUCCEEDED_EVENT && e.obj.id.Some? && EventAmount(e.obj).Some?
    requires forall i :: 0 <= i < |db.books.intents| ==> db.books.intents[i].stripeId != e.obj.id
    ensures var (db1, out) := Deliver(db, Clean(e, now));
            && out == Done(Received) && db1.books == db.books
            && Deliver(Run(db1, actions), d) == (Run(db1, actions), Done(Duplicate))
  {
    var b := db.books;
    assert forall i :: 0 <= i < |b.intents| ==> !StripeIdIs(e.obj.id.value)(b.intents[i]);
    ProcessedIsFinal(Deliver(db, Clean(e, now)).0, actions, d);
  }

  /** The row can take a capture, or has taken one: it has not been made SUCCEEDED by a reply. */
  ghost predicate Bookable(b: Books, id: string) {
    exists i: nat :: LocalIntent(b, i, id) && (b.intents[i].status == Succeeded ==> b.intents[i].received > 0)
  }

  lemma OneRowPerId(b: Books, i: nat, j: nat, id: string)
    requires UniqueIntents(b) && LocalIntent(b, i, id) && LocalIntent(b, j, id)
    ensures i == j
  {
  }

  /** A clean delivery to an existing row leaves it SUCCEEDED, with money unless it was SUCCEEDED
      without. */
  lemma CleanDeliveryToRow(db: Db, e: Event, now: Time, i: nat)
    requires Inv(db.books) && !Processed(db, e.id) && e.kind == SUCCEEDED_EVENT && e.obj.id.Some?
    requires EventAmount(e.obj).Some? && EventAmount(e.obj).value > 0 && LocalIntent(db.books, i, e.obj.id.value)
    ensures var x, after := db.books.intents[i], Deliver(db, Clean(e, now)).0.books;
            && LocalIntent(after, i, e.obj.id.value) && after.intents[i].status == Succeeded
            && (after.intents[i].received > 0 <==> (x.status == Succeeded ==> x.received > 0))
  {
    StepAdvances(db, Webhook(Clean(e, now)), i);
    if db.books.intents[i].status != Succeeded {
      DeliverBooks(db, Clean(e, now));
      CaptureDispatches(db.books, e, i);
      var j := DispatchChange(db.books, e);
      assert i == j;
    }
  }

  /** An acknowledged success need not be booked. A clean delivery of an event that is not processed and
      reports money is answered. Afterwards its intent has succeeded if and only if it had a row; but
      it has received money if and only if it had a row that no reply had made SUCCEEDED without
      money, and such a row never receives any. No later delivery of the event does anything more. */
  lemma WhenAcknowledgedIsBooked(db: Db, e: Event, now: Time, actions: seq<Action>, d: Delivery)
    requires Inv(db.books) && !Processed(db, e.id) && d.event == e
    requires e.kind == SUCCEEDED_EVENT && e.obj.id.Some? && EventAmount(e.obj).Some? && EventAmount(e.obj).value > 0
    ensures var (db1, out) := Deliver(db, Clean(e, now));
            var id := e.obj.id.value;
            && out == Done(Received)
            && (SucceededRow(db1.books, id) <==> HasLocalIntent(db.books, id))
            && (HasReceived(db1.books, id) <==> Bookable(db.books, id))
            && (HasLocalIntent(db.books, id) && !Bookable(db.books, id) ==> !HasReceived(Run(db1, actions).books, id))
            && Deliver(Run(db1, actions), d) == (Run(db1, actions), Done(Duplicate))
  {
    var db1 := Deliver(db, Clean(e, now)).0;
    var id := e.obj.id.value;
    WhenDispatchRefuses(db.books, e);
    DeliverBooks(db, Clean(e, now));
    ProcessedIsFinal(db1, actions, d);
    if HasLocalIntent(db.books, id) {
      var i: nat :| LocalIntent(db.books, i, id);
      BookedForRow(db, e, now, actions, i);
    } else {
      forall i | 0 <= i < |db.books.intents| ensures db.books.intents[i].stripeId != e.obj.id {
        assert !LocalIntent(db.books, i, id);
      }
      EarlyEventIsLost(db, e, now, actions, d);
    }
  }

  lemma BookedForRow(db: Db, e: Event, now: Time, actions: seq<Action>, i: nat)
    requires Inv(db.books) && !Processed(db, e.id) && e.kind == SUCCEEDED_EVENT && e.obj.id.Some?
    requires EventAmount(e.obj).Some? && EventAmount(e.obj).value > 0 && LocalIntent(db.books, i, e.obj.id.value)
    ensures var db1, id := Deliver(db, Clean(e, now)).0, e.obj.id.value;
            && SucceededRow(db1.books, id) && (HasReceived(db1.books, id) <==> Bookable(db.books, id))
            && (!Bookable(db.books, id) ==> !HasReceived(Run(db1, actions).books, id))
  {
    var db1, id := Deliver(db, Clean(e, now)).0, e.obj.id.value;
    CleanDeliveryToRow(db, e, now, i);
    StepInv(db, Webhook(Clean(e, now)));
    OnlyRow(db.books, i, id);
    OnlyRow(db1.books, i, id);
    assert IntentOk(db1.books, i);
    if !Bookable(db.books, id) {
      SucceededByReplyIsNeverCaptured(db1, actions, i);
      RunAdvances(db1, actions, i);
      RunInv(db1, actions);
      OnlyRow(Run(db1, actions).books, i, id);
    }
  }

  /** What holds of some row with a Stripe id holds of the one there is. */
  lemma OnlyRow(b: Books, i: nat, id: string)
    requires Inv(b) && LocalIntent(b, i, id)
    ensures HasReceived(b, id) <==> b.intents[i].received > 0
    ensures Bookable(b, id) <==> (b.intents[i].status == Succeeded ==> b.intents[i].received > 0)
  {
    forall j: nat | LocalIntent(b, j, id) ensures j == i {
      OneRowPerId(b, i, j, id);
    }
    assert IntentOk(b, i);
  }

  /** A delivery the handler refuses leaves intents, ledger and sessions alone and the event
      unprocessed, so that Stripe will send it again. The error is noted exactly when an earlier
      delivery has left a row behind; a row this delivery added is rolled back with the rest. */
  lemma RefusedDeliveries(db: Db, d: Delivery)
    requires !Processed(db, d.event.id) && d.commits > 0
    requires Dispatch(db.books, d.event).Refused? || d.glitch == EarlyGlitch
    ensures var (db', out) := Deliver(db, d);
            && out == Raised(HandlerFailed) && db'.books == db.books && db'.stamps == db.stamps
            && !Processed(db', d.event.id) && db'.events.Keys == db.events.Keys
            && (d.event.id in db'.events ==> db'.events[d.event.id].error)
  {
  }

  /** The handler itself refuses a succeeded event exactly if it lacks an id or an `amount`, if the
      amount it would read is null, or if it reports nothing received for an intent that is still
      waiting; never because of the database. */
  lemma WhenDispatchRefuses(b: Books, e: Event)
    requires Inv(b) && e.kind == SUCCEEDED_EVENT
    ensures Dispatch(b, e).Refused? <==>
            || e.obj.id.None? || e.obj.amount.Absent?
            || e.obj.amountReceived.Null? || (e.obj.amountReceived.Absent? && e.obj.amount.Null?)
            || (EventAmount(e.obj).value <= 0
                && exists i ::
                     0 <= i < |b.intents| && b.intents[i].stripeId == e.obj.id && b.intents[i].status != Succeeded)
  {
    if e.obj.id.Some? && EventAmount(e.obj).Some? {
      var id := e.obj.id.value;
      if exists i :: 0 <= i < |b.intents| && b.intents[i].stripeId == Some(id) {
        var i :| 0 <= i < |b.intents| && b.intents[i].stripeId == Some(id);
        IntentLookup(b, i, id);
        SessionLookup(b, i);
      } else {
        assert forall i :: 0 <= i < |b.intents| ==> !StripeIdIs(id)(b.intents[i]);
      }
    }
  }
}
