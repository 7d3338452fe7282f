/** Deliveries amid everything else: over any run of requests and deliveries, an event acts once. */
module Replay {
  import opened Common
  import opened Ledger
  import opened Books
  import opened Operations
  import opened Runs
  import opened Lifecycle
  import opened Webhooks

  /** The run with each event delivered cleanly where it first got through, and not again. */
  function Pruned(actions: seq<Action>, seen: set<string>): seq<Action> {
    if actions == [] then []
    else
      var a := actions[0];
      if !a.Webhook? then [a] + Pruned(actions[1..], seen)
      else if Effective(a.delivery) && a.delivery.event.id !in seen then
        [Webhook(Clean(a.delivery.event, a.delivery.now))] + Pruned(actions[1..], seen + {a.delivery.event.id})
      else Pruned(actions[1..], seen)
  }

  /** A run and its pruned run side by side: what the pruned one does while the other does `a`. */
  function OnceStep(once: Db, a: Action, seen: set<string>): Db {
    if !a.Webhook? then Step(once, a)
    else if Effective(a.delivery) && a.delivery.event.id !in seen then
      Step(once, Webhook(Clean(a.delivery.event, a.delivery.now)))
    else once
  }

  function SeenAfter(seen: set<string>, a: Action): set<string> {
    if a.Webhook? && Effective(a.delivery) then seen + {a.delivery.event.id} else seen
  }

  /** The two agree on the books in every state they go through. */
  ghost predicate AgreeThroughout(full: Db, once: Db, actions: seq<Action>, seen: set<string>)
    decreases actions
  {
    && full.books == once.books
    && (actions != [] ==>
          AgreeThroughout(Step(full, actions[0]), OnceStep(once, actions[0], seen), actions[1..],
                          SeenAfter(seen, actions[0])))
  }

  lemma {:induction false} AgreementIsOfRuns(full: Db, once: Db, actions: seq<Action>, seen: set<string>)
    requires AgreeThroughout(full, once, actions, seen)
    ensures Run(full, actions).books == Run(once, Pruned(actions, seen)).books
    decreases actions
  {
    if actions != [] {
      var a, rest := actions[0], actions[1..];
      AgreementIsOfRuns(Step(full, a), OnceStep(once, a, seen), rest, SeenAfter(seen, a));
      var later := Pruned(rest, SeenAfter(seen, a));
      if a.Webhook? && Effective(a.delivery) && a.delivery.event.id in seen {
        assert SeenAfter(seen, a) == seen;
      }
      assert ([a] + later)[1..] == later;
      if a.Webhook? {
        assert ([Webhook(Clean(a.delivery.event, a.delivery.now))] + later)[1..] == later;
      }
    }
  }

  // ------------------------------------------------------------ acting again

  /** A readable success for the intent of a row and a session that reports no money. */
  ghost predicate UnpaidFor(b: Books, e: Event, i: nat, s: nat) {
    && e.kind == SUCCEEDED_EVENT && e.obj.id.Some? && EventAmount(e.obj).Some? && EventAmount(e.obj).value <= 0
    && LocalIntent(b, i, e.obj.id.value) && s < |b.sessions| && b.sessions[s].intent == Some(i)
  }

  /** The one way an event acts again: a delivery that gets through, of an event that got through before
      and is not processed, without money, whose intent has succeeded by now while its session is
      not completed. */
  ghost predicate ActsAgain(db: Db, a: Action, seen: set<string>) {
    && a.Webhook? && Effective(a.delivery) && a.delivery.event.id in seen && !Processed(db, a.delivery.event.id)
    && exists i: nat, s: nat :: UnpaidFor(db.books, a.delivery.event, i, s)
         && db.books.intents[i].status == Succeeded && db.books.sessions[s].status != Completed
  }

  ghost predicate SomeActsAgain(db: Db, actions: seq<Action>, seen: set<string>)
    decreases actions
  {
    actions != []
    && (ActsAgain(db, actions[0], seen)
        || SomeActsAgain(Step(db, actions[0]), actions[1..], SeenAfter(seen, actions[0])))
  }

  /** One payload per event id. */
  ghost predicate OnePayload(actions: seq<Action>) {
    forall a, b ::
      a in actions && b in actions && a.Webhook? && b.Webhook? && a.delivery.event.id == b.delivery.event.id ==>
      a.delivery.event == b.delivery.event
  }

  /** A success that can be read and reports no money. */
  predicate Moneyless(e: Event) {
    e.kind == SUCCEEDED_EVENT && e.obj.id.Some? && EventAmount(e.obj).Some? && EventAmount(e.obj).value <= 0
  }

  /** The event can never do anything more: it cannot be read, or its intent has succeeded and the
      intent's session is completed. */
  ghost predicate Over(b: Books, e: Event) {
    && e.kind == SUCCEEDED_EVENT
    && (e.obj.id.None? || EventAmount(e.obj).None? || exists i, s :: OverAt(b, e.obj.id.value, i, s))
  }

  ghost predicate OverAt(b: Books, id: string, i: nat, s: nat) {
    && i < |b.intents| && b.intents[i].stripeId == Some(id) && b.intents[i].status == Succeeded
    && s < |b.sessions| && b.sessions[s].intent == Some(i) && b.sessions[s].status == Completed
  }

  lemma OverIsAbsorbed(b: Books, e: Event)
    requires Inv(b) && Over(b, e)
    ensures Absorbed(b, e)
  {
    if e.obj.id.Some? && EventAmount(e.obj).Some? {
      var i, s :| OverAt(b, e.obj.id.value, i, s);
      AbsorbedMeans(b, e, i);
    }
  }

  lemma OverStays(db: Db, a: Action, e: Event)
    requires Inv(db.books) && Over(db.books, e)
    ensures Over(Step(db, a).books, e)
  {
    if e.obj.id.Some? && EventAmount(e.obj).Some? {
      var i, s :| OverAt(db.books, e.obj.id.value, i, s);
      StepAdvances(db, a, i);
      StepSessions(db, a, s);
      assert OverAt(Step(db, a).books, e.obj.id.value, i, s);
    }
  }

  /** A delivery that gets through is processed, or has done all there is to do, or cannot be read, or
      reports no money. */
  lemma EffectiveIsOver(db: Db, d: Delivery)
    requires Inv(db.books) && Effective(d)
    ensures Processed(Deliver(db, d).0, d.event.id) || Over(Deliver(db, d).0.books, d.event) || Moneyless(d.event)
  {
    var e := d.event;
    if Dispatch(db.books, e).Refused? {
      RefusedCannotBeRead(db.books, e);
    } else if Dispatch(db.books, e).commits && !Processed(db, e.id) {
      DeliverBooks(db, d);
      CommittedIsOver(db.books, e);
    }
  }

  lemma RefusedCannotBeRead(b: Books, e: Event)
    requires Inv(b) && Dispatch(b, e).Refused?
    ensures e.kind == SUCCEEDED_EVENT && (e.obj.id.None? || EventAmount(e.obj).None? || Moneyless(e))
  {
    WhenDispatchRefuses(b, e);
  }

  /** Without money, an event changes the books exactly when its intent has succeeded and a session of
      it is not completed. */
  lemma MoneylessActs(b: Books, e: Event)
    requires Inv(b) && Moneyless(e)
    ensures BooksAfter(b, e) != b <==>
            exists i: nat, s: nat ::
              UnpaidFor(b, e, i, s) && b.intents[i].status == Succeeded && b.sessions[s].status != Completed
  {
    var id := e.obj.id.value;
    if BooksAfter(b, e) != b {
      var i := DispatchChange(b, e);
      AbsorbedMeans(b, e, i);
      var s :| 0 <= s < |b.sessions| && b.sessions[s].intent == Some(i) && b.sessions[s].status != Completed;
      assert UnpaidFor(b, e, i, s);
    }
    if i: nat, s: nat :|
      UnpaidFor(b, e, i, s) && b.intents[i].status == Succeeded && b.sessions[s].status != Completed {
      AbsorbedMeans(b, e, i);
    }
  }

  lemma CommittedIsOver(b: Books, e: Event)
    requires Inv(b) && Dispatch(b, e).Applied? && Dispatch(b, e).commits
    ensures Over(BooksAfter(b, e), e)
  {
    var i := One(b.intents, StripeIdIs(e.obj.id.value)).row;
    var b1 := ApplySucceeded(b, i, EventAmount(e.obj).value).value;
    var s := One(b1.sessions, SessionOf(i)).row;
    assert StripeIdIs(e.obj.id.value)(b.intents[i]) && SessionOf(i)(b1.sessions[s]);
    assert OverAt(BooksAfter(b, e), e.obj.id.value, i, s);
  }

  /** What a request does to the books depends on the books alone, and it leaves the events alone. */
  lemma RequestsReadBooks(db: Db, db': Db, a: Action)
    requires db.books == db'.books && !a.Webhook?
    ensures Step(db, a).books == Step(db', a).books
    ensures Step(db, a).events == db.events
  {
    match a
    case Create(req, owner, reply, now, commits) => CreateReadsBooks(db, db', req, owner, reply, now, commits);
    case OpenSession(req, merchant, reply, now, commits) => OpenReadsBooks(db, db', req, merchant, reply, now, commits);
    case _ => OthersReadBooks(db, db', a);
  }

  lemma CreateReadsBooks(db: Db, db': Db, req: CreateRequest, owner: Option<string>, reply: Reply, now: Time,
                         commits: nat)
    requires db.books == db'.books
    ensures var (after, out) := CreateIntent(db, req, owner, reply, now, commits);
            var (after', out') := CreateIntent(db', req, owner, reply, now, commits);
            after.books == after'.books && out == out' && after.events == db.events
  {
  }

  lemma OpenReadsBooks(db: Db, db': Db, req: SessionRequest, merchant: string, reply: Reply, now: Time, commits: nat)
    requires db.books == db'.books
    ensures CreateSession(db, req, merchant, reply, now, commits).0.books ==
            CreateSession(db', req, merchant, reply, now, commits).0.books
    ensures CreateSession(db, req, merchant, reply, now, commits).0.events == db.events
  {
    CreateReadsBooks(db, db', IntentRequest(req), Some(merchant), reply, now, commits);
  }

  lemma OthersReadBooks(db: Db, db': Db, a: Action)
    requires db.books == db'.books && (a.Confirm? || a.Cancel? || a.Refund? || a.ViewSession?)
    ensures Step(db, a).books == Step(db', a).books
    ensures Step(db, a).events == db.events
  {
  }

  /** An event seen before that can do nothing more, or nothing but act again without money. */
  ghost predicate Spent(db: Db, e: Event) {
    Processed(db, e.id) || Over(db.books, e) || Moneyless(e)
  }

  /** The two runs agree on the books, and on what is processed among the events not seen; the events
      seen are spent in the first run. */
  ghost predicate InTune(full: Db, once: Db, seen: set<Event>) {
    && full.books == once.books
    && (forall id :: id !in Ids(seen) ==> (Processed(full, id) <==> Processed(once, id)))
    && (forall e :: e in seen ==> Spent(full, e))
  }

  lemma RequestInTune(full: Db, once: Db, seen: set<Event>, a: Action)
    requires Inv(full.books) && InTune(full, once, seen) && !a.Webhook?
    ensures InTune(Step(full, a), Step(once, a), seen)
  {
    RequestsReadBooks(full, once, a);
    RequestsReadBooks(once, full, a);
    forall e | e in seen ensures Spent(Step(full, a), e) {
      if Over(full.books, e) { OverStays(full, a, e); }
    }
  }

  lemma SeenStaySpent(full: Db, seen: set<Event>, d: Delivery)
    requires Inv(full.books) && forall e :: e in seen ==> Spent(full, e)
    ensures forall e :: e in seen ==> Spent(Deliver(full, d).0, e)
  {
    DeliverBooks(full, d);
    forall e | e in seen ensures Spent(Deliver(full, d).0, e) {
      if Over(full.books, e) { OverStays(full, Webhook(d), e); }
    }
  }

  lemma FirstInTune(full: Db, once: Db, seen: set<Event>, d: Delivery)
    requires Inv(full.books) && InTune(full, once, seen) && Effective(d) && d.event.id !in Ids(seen)
    ensures InTune(Deliver(full, d).0, Deliver(once, Clean(d.event, d.now)).0, seen + {d.event})
  {
    DeliverBooks(full, d);
    DeliverBooks(once, Clean(d.event, d.now));
    SeenStaySpent(full, seen, d);
    EffectiveIsOver(full, d);
    assert Ids(seen + {d.event}) == Ids(seen) + {d.event.id};
  }

  /** A delivery lost or repeated moves the books of the first run exactly when it acts again. */
  lemma AgainMovesBooks(full: Db, once: Db, seen: set<Event>, d: Delivery)
    requires Inv(full.books) && InTune(full, once, seen) && (!Effective(d) || d.event in seen)
    ensures Deliver(full, d).0.books != full.books <==> ActsAgain(full, Webhook(d), Ids(seen))
  {
    DeliverBooks(full, d);
    if Effective(d) {
      assert d.event.id in Ids(seen);
      if Over(full.books, d.event) { OverIsAbsorbed(full.books, d.event); }
      if Moneyless(d.event) {
        MoneylessActs(full.books, d.event);
      } else {
        assert forall i: nat, s: nat :: !UnpaidFor(full.books, d.event, i, s);
      }
    }
  }

  lemma AgainInTune(full: Db, once: Db, seen: set<Event>, d: Delivery)
    requires Inv(full.books) && InTune(full, once, seen) && (!Effective(d) || d.event in seen)
    requires !ActsAgain(full, Webhook(d), Ids(seen))
    ensures InTune(Deliver(full, d).0, once, seen)
  {
    DeliverBooks(full, d);
    AgainMovesBooks(full, once, seen, d);
    SeenStaySpent(full, seen, d);
    if d.event in seen {
      assert d.event.id in Ids(seen);
    }
  }

  /** The events still to come are those seen, where they have the same id. */
  ghost predicate Matching(actions: seq<Action>, seen: set<Event>) {
    OnePayload(actions)
    && forall e, a :: e in seen && a in actions && a.Webhook? && a.delivery.event.id == e.id ==> a.delivery.event == e
  }

  lemma MatchingRest(actions: seq<Action>, seen: set<Event>)
    requires actions != [] && Matching(actions, seen)
    ensures Matching(actions[1..], seen)
    ensures actions[0].Webhook? ==> Matching(actions[1..], seen + {actions[0].delivery.event})
    ensures actions[0].Webhook? && actions[0].delivery.event.id in Ids(seen) ==> actions[0].delivery.event in seen
  {
    assert actions[0] in actions && forall x :: x in actions[1..] ==> x in actions;
  }

  lemma {:induction false} AgreeUnlessActing(full: Db, once: Db, actions: seq<Action>, seen: set<Event>)
    requires Inv(full.books) && InTune(full, once, seen) && Matching(actions, seen)
    ensures AgreeThroughout(full, once, actions, Ids(seen)) <==> !SomeActsAgain(full, actions, Ids(seen))
    decreases actions
  {
    if actions != [] {
      var a, rest := actions[0], actions[1..];
      MatchingRest(actions, seen);
      StepInv(full, a);
      if !a.Webhook? {
        RequestInTune(full, once, seen, a);
        AgreeUnlessActing(Step(full, a), Step(once, a), rest, seen);
      } else if Effective(a.delivery) && a.delivery.event.id !in Ids(seen) {
        var seen' := seen + {a.delivery.event};
        FirstInTune(full, once, seen, a.delivery);
        assert Ids(seen') == SeenAfter(Ids(seen), a);
        AgreeUnlessActing(Step(full, a), OnceStep(once, a, Ids(seen)), rest, seen');
      } else {
        assert SeenAfter(Ids(seen), a) == Ids(seen);
        AgreeUnlessRepeated(full, once, actions, seen);
        if !ActsAgain(full, a, Ids(seen)) {
          AgainInTune(full, once, seen, a.delivery);
          AgreeUnlessActing(Step(full, a), once, rest, seen);
        }
      }
    }
  }

  /** Where a repeated delivery acts again, the runs part at once. */
  lemma AgreeUnlessRepeated(full: Db, once: Db, actions: seq<Action>, seen: set<Event>)
    requires Inv(full.books) && InTune(full, once, seen) && actions != [] && actions[0].Webhook?
    requires !Effective(actions[0].delivery) || actions[0].delivery.event in seen
    ensures ActsAgain(full, actions[0], Ids(seen)) ==> !AgreeThroughout(full, once, actions, Ids(seen))
  {
    var a := actions[0];
    AgainMovesBooks(full, once, seen, a.delivery);
    if Effective(a.delivery) {
      assert a.delivery.event.id in Ids(seen);
    }
    assert OnceStep(once, a, Ids(seen)) == once;
  }

  /** Exactly when events act once. A run of any requests and deliveries, repeated, refused, disturbed
      and cut short, and the run in which each event is delivered once and cleanly, where it first
      got through, agree on the books in every state they go through, if and only if no event acts
      again. Nothing is assumed of the deliveries but that an event id stands for one payload. */
  lemma EventsActOnceUnlessAgain(db: Db, actions: seq<Action>)
    requires Inv(db.books) && OnePayload(actions)
    ensures AgreeThroughout(db, db, actions, {}) <==> !SomeActsAgain(db, actions, {})
  {
    assert Ids({}) == {};
    AgreeUnlessActing(db, db, actions, {});
  }

  /** In particular, if every readable success reports money, or no event acts again for another reason,
      the run leaves the books of the pruned run. */
  lemma EventsActOnce(db: Db, actions: seq<Action>)
    requires Inv(db.books) && OnePayload(actions)
    requires !SomeActsAgain(db, actions, {}) || forall a :: a in actions && a.Webhook? ==> !Moneyless(a.delivery.event)
    ensures Run(db, actions).books == Run(db, Pruned(actions, {})).books
  {
    if forall a :: a in actions && a.Webhook? ==> !Moneyless(a.delivery.event) {
      MoneyNeverActsAgain(db, actions, {});
    }
    EventsActOnceUnlessAgain(db, actions);
    AgreementIsOfRuns(db, db, actions, {});
  }

  lemma {:induction false} MoneyNeverActsAgain(db: Db, actions: seq<Action>, seen: set<string>)
    requires forall a :: a in actions && a.Webhook? ==> !Moneyless(a.delivery.event)
    ensures !SomeActsAgain(db, actions, seen)
    decreases actions
  {
    if actions != [] {
      assert actions[0] in actions;
      MoneyNeverActsAgain(Step(db, actions[0]), actions[1..], SeenAfter(seen, actions[0]));
    }
  }

  // ------------------------------------------------- a success without money

  /** An event for a row that waits with an open session, reporting a success without money. */
  ghost predicate WaitsUnpaid(db: Db, e: Event, i: nat, s: nat) {
    && i < |db.books.intents| && db.books.intents[i].HasStripeId()
    && db.books.intents[i].status !in {Succeeded, Canceled, Failed}
    && s < |db.books.sessions| && db.books.sessions[s].intent == Some(i) && db.books.sessions[s].status != Completed
    && e.kind == SUCCEEDED_EVENT && e.obj.id == db.books.intents[i].stripeId
    && EventAmount(e.obj).Some? && EventAmount(e.obj).value <= 0 && !Processed(db, e.id)
  }

  /** The proviso is needed. A success without money is refused while the row waits; once a reply
      to a confirmation has made the row SUCCEEDED, the same event completes the session. */
  lemma WithoutMoneyEventsActLater(db: Db, e: Event, i: nat, s: nat, reply: Reply, now: Time)
    requires Inv(db.books) && WaitsUnpaid(db, e, i, s) && reply.Reply? && reply.status == "succeeded"
    ensures var once := [Webhook(Clean(e, now)), Confirm(i, reply, now, 1)];
            && s < |Run(db, once).books.sessions| && s < |Run(db, once + [Webhook(Clean(e, now))]).books.sessions|
            && Pruned(once + [Webhook(Clean(e, now))], {}) == once
            && Run(db, once).books.sessions[s].status != Completed
            && Run(db, once + [Webhook(Clean(e, now))]).books.sessions[s].status == Completed
  {
    var w, c := Webhook(Clean(e, now)), Confirm(i, reply, now, 1);
    RefusedWhileWaiting(db, e, i, s, now);
    ConfirmedUnpaid(Step(db, w), e, i, s, reply, now);
    SecondCompletes(Step(Step(db, w), c), e, i, s, now);
    RunOfThree(db, w, c, w);
    PrunedOfThree(e, c, now);
  }

  lemma RunOfThree(db: Db, a: Action, b: Action, c: Action)
    ensures Run(db, [a, b]) == Step(Step(db, a), b)
    ensures Run(db, [a, b] + [c]) == Step(Step(Step(db, a), b), c)
  {
    assert [a, b][1..] == [b] && [b][1..] == [];
    assert Run(Step(db, a), [b]) == Step(Step(db, a), b);
    assert [a, b] + [c] == [a, b, c] && [a, b, c][1..] == [b, c] && [b, c][1..] == [c] && [c][1..] == [];
    assert Run(Step(Step(db, a), b), [c]) == Step(Step(Step(db, a), b), c);
  }

  lemma PrunedOfThree(e: Event, c: Action, now: Time)
    requires !c.Webhook?
    ensures var w := Webhook(Clean(e, now)); Pruned([w, c] + [w], {}) == [w, c]
  {
    var w := Webhook(Clean(e, now));
    assert [w, c] + [w] == [w, c, w] && [w, c, w][1..] == [c, w] && [c, w][1..] == [w] && [w][1..] == [];
    assert Pruned([w], {} + {e.id}) == [];
    assert Pruned([c, w], {} + {e.id}) == [c];
  }

  lemma RefusedWhileWaiting(db: Db, e: Event, i: nat, s: nat, now: Time)
    requires Inv(db.books) && WaitsUnpaid(db, e, i, s)
    ensures WaitsUnpaid(Deliver(db, Clean(e, now)).0, e, i, s) && Inv(Deliver(db, Clean(e, now)).0.books)
  {
    WhenDispatchRefuses(db.books, e);
    RefusedDeliveries(db, Clean(e, now));
  }

  lemma ConfirmedUnpaid(db: Db, e: Event, i: nat, s: nat, reply: Reply, now: Time)
    requires Inv(db.books) && WaitsUnpaid(db, e, i, s) && reply.Reply? && reply.status == "succeeded"
    ensures var db' := Step(db, Confirm(i, reply, now, 1));
            && Inv(db'.books) && db'.events == db.events && db'.books.sessions == db.books.sessions
            && |db'.books.intents| == |db.books.intents| && db'.books.intents[i].status == Succeeded
            && db'.books.intents[i].stripeId == db.books.intents[i].stripeId
  {
    assert ParseStatus(reply.status) == Some(Succeeded);
    StepInv(db, Confirm(i, reply, now, 1));
  }

  lemma SecondCompletes(db: Db, e: Event, i: nat, s: nat, now: Time)
    requires Inv(db.books) && !Processed(db, e.id) && i < |db.books.intents| && s < |db.books.sessions|
    requires e.kind == SUCCEEDED_EVENT && e.obj.id.Some? && e.obj.id == db.books.intents[i].stripeId
             && EventAmount(e.obj).Some?
    requires db.books.intents[i].status == Succeeded && db.books.sessions[s].intent == Some(i)
             && db.books.sessions[s].status != Completed
    ensures var after := Deliver(db, Clean(e, now)).0.books;
            s < |after.sessions| && after.sessions[s].status == Completed
  {
    AbsorbedMeans(db.books, e, i);
    var j := DispatchChange(db.books, e);
    DeliverBooks(db, Clean(e, now));
  }
}
