/** Payment links: what closes a checkout session, over whole runs. */
module Links {
  import opened Common
  import opened Ledger
  import opened Books
  import opened Operations
  import opened Runs
  import opened Lifecycle
  import opened Webhooks

  /** A view of the session after its time, in a process that lives to commit. */
  predicate Lapses(db: Db, a: Action, s: nat)
    requires s < |db.books.sessions|
  {
    a.ViewSession? && a.session == s && a.commits > 0 && db.books.sessions[s].expiresAt < a.now
  }

  /** A delivery that gets through, of a new readable success for the session's intent, with money unless
      the intent has succeeded already. */
  predicate PaysFor(db: Db, a: Action, s: nat)
    requires s < |db.books.sessions|
  {
    var intent := db.books.sessions[s].intent;
    && a.Webhook? && Effective(a.delivery) && !Processed(db, a.delivery.event.id)
    && a.delivery.event.kind == SUCCEEDED_EVENT && a.delivery.event.obj.id.Some?
    && EventAmount(a.delivery.event.obj).Some?
    && intent.Some? && intent.value < |db.books.intents|
    && db.books.intents[intent.value].stripeId == a.delivery.event.obj.id
    && (db.books.intents[intent.value].status == Succeeded || EventAmount(a.delivery.event.obj).value > 0)
  }

  /** What becomes of a session in one step, whatever the step is: it is completed exactly by what pays
      for it, at any time; it expires exactly when it is open and viewed too late. */
  lemma StepStatus(db: Db, a: Action, s: nat)
    requires Inv(db.books) && s < |db.books.sessions|
    ensures s < |Step(db, a).books.sessions|
    ensures Step(db, a).books.sessions[s].status ==
            if PaysFor(db, a, s) then Completed
            else if db.books.sessions[s].status == Open && Lapses(db, a, s) then Expired
            else db.books.sessions[s].status
  {
    StepSessions(db, a, s);
    match a
    case Webhook(d) => DeliveredStatus(db, d, s);
    case OpenSession(req, merchant, reply, now, commits) => OthersKeepSessions(db, a, s);
    case _ =>
  }

  lemma OthersKeepSessions(db: Db, a: Action, s: nat)
    requires a.OpenSession? && s < |db.books.sessions|
    ensures s < |Step(db, a).books.sessions| && Step(db, a).books.sessions[s] == db.books.sessions[s]
  {
  }

  lemma DeliveredStatus(db: Db, d: Delivery, s: nat)
    requires Inv(db.books) && s < |db.books.sessions|
    ensures s < |Deliver(db, d).0.books.sessions|
    ensures Deliver(db, d).0.books.sessions[s].status ==
            if PaysFor(db, Webhook(d), s) then Completed else db.books.sessions[s].status
  {
    DeliverBooks(db, d);
    if Effective(d) && !Processed(db, d.event.id) {
      DispatchedStatus(db, d, s);
    }
  }

  lemma DispatchedStatus(db: Db, d: Delivery, s: nat)
    requires Inv(db.books) && s < |db.books.sessions| && Effective(d) && !Processed(db, d.event.id)
    ensures s < |BooksAfter(db.books, d.event).sessions|
    ensures BooksAfter(db.books, d.event).sessions[s].status ==
            if PaysFor(db, Webhook(d), s) then Completed else db.books.sessions[s].status
  {
    var b, e := db.books, d.event;
    assert SessionOk(b, s);
    var i := b.sessions[s].intent.value;
    if BooksAfter(b, e) == b {
      if PaysFor(db, Webhook(d), s) {
        AbsorbedMeans(b, e, i);
      }
    } else {
      var j := DispatchChange(b, e);
      WhenDispatchRefuses(b, e);
      if b.intents[i].stripeId == e.obj.id {
        OneRowPerId(b, i, j, e.obj.id.value);
      }
    }
  }

  predicate SomePaysFor(db: Db, actions: seq<Action>, s: nat)
    requires s < |db.books.sessions|
    decreases actions
  {
    actions != [] &&
    var after := Step(db, actions[0]);
    (PaysFor(db, actions[0], s) || (s < |after.books.sessions| && SomePaysFor(after, actions[1..], s)))
  }

  predicate SomeLapses(db: Db, actions: seq<Action>, s: nat)
    requires s < |db.books.sessions|
    decreases actions
  {
    actions != [] &&
    var after := Step(db, actions[0]);
    (Lapses(db, actions[0], s) || (s < |after.books.sessions| && SomeLapses(after, actions[1..], s)))
  }

  /** After any run a session is completed if and only if it was before or something paid for it, and
      open if and only if it was before, nothing paid for it, and nobody viewed it too late. */
  lemma {:induction false} RunStatus(db: Db, actions: seq<Action>, s: nat)
    requires Inv(db.books) && s < |db.books.sessions|
    ensures s < |Run(db, actions).books.sessions|
    ensures var before, after := db.books.sessions[s].status, Run(db, actions).books.sessions[s].status;
            && (after == Completed <==> before == Completed || SomePaysFor(db, actions, s))
            && (after == Open <==> before == Open && !SomePaysFor(db, actions, s) && !SomeLapses(db, actions, s))
    decreases actions
  {
    if actions != [] {
      StepStatus(db, actions[0], s);
      StepInv(db, actions[0]);
      RunStatus(Step(db, actions[0]), actions[1..], s);
    }
  }

  /** A new link is the merchant's own, on the requested terms, and can be paid for 24 hours from its
      creation and not longer: after any run, a view that is answered shows it open if and only if
      nothing has paid for it and no view, this one included, came more than 24 hours later. */
  lemma NewLinkLivesADay(db: Db, req: SessionRequest, merchant: string, reply: Reply, now: Time, commits: nat,
                         actions: seq<Action>, later: Time, commits': nat)
    requires Inv(db.books)
    requires |CreateSession(db, req, merchant, reply, now, commits).0.books.sessions| > |db.books.sessions|
    ensures var (created, out) := CreateSession(db, req, merchant, reply, now, commits);
            var s := |db.books.sessions|;
            var run := Run(created, actions);
            var (viewed, shown) := GetOpenSession(run, s, later, commits');
            && out == Done(s) && s < |created.books.sessions| && s < |viewed.books.sessions|
            && created.books.sessions[s].merchant == merchant && created.books.sessions[s].amount == req.amount
            && created.books.sessions[s].currency == Lower(req.currency)
            && created.books.sessions[s].expiresAt == now + 24 * 60 * 60
            && (shown.Done? ==>
                  (viewed.books.sessions[s].status == Open <==>
                     && !SomePaysFor(created, actions, s) && !SomeLapses(created, actions, s)
                     && later <= now + 24 * 60 * 60))
  {
    var created := CreateSession(db, req, merchant, reply, now, commits).0;
    var s := |db.books.sessions|;
    StepInv(db, OpenSession(req, merchant, reply, now, commits));
    NewSessionIsOpen(db, req, merchant, reply, now, commits);
    RunStatus(created, actions, s);
    SessionsChangeAtMostTwice(created, actions, s);
    ViewedSessionIsCurrent(Run(created, actions), s, later, commits');
  }

  lemma NewSessionIsOpen(db: Db, req: SessionRequest, merchant: string, reply: Reply, now: Time, commits: nat)
    requires |CreateSession(db, req, merchant, reply, now, commits).0.books.sessions| > |db.books.sessions|
    ensures var (created, out) := CreateSession(db, req, merchant, reply, now, commits);
            && out == Done(|db.books.sessions|)
            && created.books.sessions[|db.books.sessions|].expiresAt == now + 24 * 60 * 60
            && created.books.sessions[|db.books.sessions|].status == Open
            && created.books.sessions[|db.books.sessions|].merchant == merchant
            && created.books.sessions[|db.books.sessions|].amount == req.amount
            && created.books.sessions[|db.books.sessions|].currency == Lower(req.currency)
  {
  }

  /** A view that is answered shows the session open exactly when it was and its time had not passed. */
  lemma ViewedSessionIsCurrent(db: Db, s: nat, now: Time, commits: nat)
    requires s < |db.books.sessions|
    ensures var (db', out) := GetOpenSession(db, s, now, commits);
            && s < |db'.books.sessions|
            && (out.Done? ==> (db'.books.sessions[s].status == Open <==>
                               db.books.sessions[s].status == Open && now <= db.books.sessions[s].expiresAt))
  {
  }
}
