/** How rows move over whole runs: refunds, captures, cancellations, sessions and replayed keys. */
module Lifecycle {
  import opened Common
  import opened Ledger
  import opened Books
  import opened Operations
  import opened Runs

  // --------------------------------------------------------- refund progress

  predicate AcceptedRefund(db: Db, a: Action, i: nat) {
    a.Refund? && a.intent == i && RefundIntent(db, i, a.amount, a.reply, a.now, a.commits).1.Done?
  }

  /** What every step keeps of an intent: its terms for ever, SUCCEEDED once reached, the amount
      received once positive; and the refunded total moves exactly by the accepted refunds. */
  ghost predicate Advances(x: Intent, y: Intent) {
    && y.key == x.key && y.stripeId == x.stripeId && y.amount == x.amount && y.currency == x.currency
    && y.merchant == x.merchant && y.customer == x.customer
    && (x.status == Succeeded ==> y.status == Succeeded && y.received == x.received)
    && (x.received > 0 ==> y.received == x.received)
    && y.refunded >= x.refunded
  }

  lemma ChangeAdvances(b: Books, c: Change, i: nat)
    requires Inv(b) && Sound(b, c) && i < |b.intents|
    ensures i < |Apply(b, c).intents|
    ensures var x, y := b.intents[i], Apply(b, c).intents[i];
            Advances(x, y) && y.refunded == x.refunded + (if c.Repayment? && c.intent == i then c.amount else 0)
  {
    assert IntentOk(b, i);
  }

  /** What a list of changes repays to an intent. */
  function Repaid(cs: seq<Change>, i: nat): int {
    if cs == [] then 0
    else (if cs[0].Repayment? && cs[0].intent == i then cs[0].amount else 0) + Repaid(cs[1..], i)
  }

  lemma {:induction false} ChangesAdvance(b: Books, cs: seq<Change>, i: nat)
    requires Inv(b) && SoundAll(b, cs) && i < |b.intents|
    ensures i < |ApplyAll(b, cs).intents|
    ensures var x, y := b.intents[i], ApplyAll(b, cs).intents[i];
            Advances(x, y) && y.refunded == x.refunded + Repaid(cs, i)
    decreases cs
  {
    if cs != [] {
      ChangeAdvances(b, cs[0], i);
      ApplyInv(b, cs[0]);
      ChangesAdvance(Apply(b, cs[0]), cs[1..], i);
    }
  }

  lemma {:induction false} NothingRepaid(cs: seq<Change>, i: nat)
    requires forall c :: c in cs ==> !c.Repayment?
    ensures Repaid(cs, i) == 0
  {
    if cs != [] {
      assert !cs[0].Repayment?;
      NothingRepaid(cs[1..], i);
    }
  }

  /** Only an accepted refund repays, and it repays its amount. */
  lemma OnlyRefundsRepay(db: Db, a: Action, i: nat)
    ensures Repaid(ChangesOf(db, a), i) ==
            if AcceptedRefund(db, a, i) then RefundAmount(db.books.intents[i], a.amount) else 0
    ensures AcceptedRefund(db, a, i) ==> RefundCheck(db.books, i, a.amount).None?
  {
    var cs := ChangesOf(db, a);
    if a.Refund? {
      if cs != [] { assert cs[1..] == []; }
    } else {
      NothingRepaid(cs, i);
    }
  }

  lemma StepAdvances(db: Db, a: Action, i: nat)
    requires Inv(db.books) && i < |db.books.intents|
    ensures i < |Step(db, a).books.intents|
    ensures var x, y := db.books.intents[i], Step(db, a).books.intents[i];
            && Advances(x, y)
            && y.refunded == x.refunded + (if AcceptedRefund(db, a, i) then RefundAmount(x, a.amount) else 0)
            && (AcceptedRefund(db, a, i) ==> 0 < RefundAmount(x, a.amount) <= x.Refundable())
  {
    StepIsItsChanges(db, a);
    ChangesAdvance(db.books, ChangesOf(db, a), i);
    OnlyRefundsRepay(db, a, i);
  }

  lemma {:induction false} RunAdvances(db: Db, actions: seq<Action>, i: nat)
    requires Inv(db.books) && i < |db.books.intents|
    ensures i < |Run(db, actions).books.intents|
    ensures Advances(db.books.intents[i], Run(db, actions).books.intents[i])
    decreases actions
  {
    if actions != [] {
      StepAdvances(db, actions[0], i);
      StepInv(db, actions[0]);
      RunAdvances(Step(db, actions[0]), actions[1..], i);
    }
  }

  /** How many refunds of an intent a run accepts. */
  function AcceptedRefunds(db: Db, actions: seq<Action>, i: nat): nat
    decreases actions
  {
    if actions == [] then 0
    else (if AcceptedRefund(db, actions[0], i) then 1 else 0) + AcceptedRefunds(Step(db, actions[0]), actions[1..], i)
  }

  /** Each accepted refund strictly lowers what is left, so a run accepts at most as many refunds
      as there is money left to refund. */
  lemma {:induction false} RefundsAreBounded(db: Db, actions: seq<Action>, i: nat)
    requires Inv(db.books) && i < |db.books.intents|
    ensures i < |Run(db, actions).books.intents|
    ensures var x, y := db.books.intents[i], Run(db, actions).books.intents[i];
            AcceptedRefunds(db, actions, i) <= y.refunded - x.refunded <= y.received - x.refunded
    decreases actions
  {
    RunInv(db, actions);
    RunAdvances(db, actions, i);
    assert IntentOk(Run(db, actions).books, i);
    if actions != [] {
      StepAdvances(db, actions[0], i);
      StepInv(db, actions[0]);
      RefundsAreBounded(Step(db, actions[0]), actions[1..], i);
    }
  }

  /** A refund without an amount refunds everything, and after it, whatever happens, every refund
      of that intent is rejected as already fully refunded. */
  lemma FullRefundIsFinal(db: Db, a: Action, actions: seq<Action>, i: nat, amount: Option<int>)
    requires Inv(db.books) && i < |db.books.intents|
    requires AcceptedRefund(db, a, i) && a.amount == None
    ensures var after := Step(db, a);
            && i < |after.books.intents| && after.books.intents[i].refunded == after.books.intents[i].received
            && RefundCheck(Run(after, actions).books, i, amount) == Some(InvalidAmount)
  {
    var after := Step(db, a);
    assert IntentOk(db.books, i);
    StepAdvances(db, a, i);
    StepInv(db, a);
    RunAdvances(after, actions, i);
    RunInv(after, actions);
    assert IntentOk(Run(after, actions).books, i);
  }

  // -------------------------------------------------- succeeded and captured

  /** A status Stripe replies that would make the row SUCCEEDED without any money received. */
  predicate RepliesSucceeded(a: Action) {
    (a.Create? || a.Confirm? || a.Cancel? || a.OpenSession?)
    && a.reply.Reply? && ParseStatus(a.reply.status) == Some(Succeeded)
  }

  ghost predicate SucceededAreCaptured(b: Books) {
    forall i :: 0 <= i < |b.intents| && b.intents[i].status == Succeeded ==> b.intents[i].received > 0
  }

  predicate SetsSucceeded(c: Change) {
    || (c.RowAdded? && c.row.status == Succeeded)
    || ((c.StatusSet? || c.Reversal?) && c.status == Succeeded)
  }

  lemma {:induction false} ChangesCapture(b: Books, cs: seq<Change>)
    requires SucceededAreCaptured(b) && SoundAll(b, cs)
    requires forall c :: c in cs ==> !SetsSucceeded(c)
    ensures SucceededAreCaptured(ApplyAll(b, cs))
    decreases cs
  {
    if cs != [] {
      assert !SetsSucceeded(cs[0]);
      ChangesCapture(Apply(b, cs[0]), cs[1..]);
    }
  }

  lemma OtherRepliesSetNothing(db: Db, a: Action)
    requires !RepliesSucceeded(a)
    ensures forall c :: c in ChangesOf(db, a) ==> !SetsSucceeded(c)
  {
  }

  /** The guard under which a reply reaches the row: the create is new, or the row is not in a
      status that keeps Stripe from being called, and the process lives to commit. */
  predicate ReplyReachesRow(db: Db, a: Action) {
    match a
    case Create(req, _, reply, _, commits) => NewRowFor(db, req, reply) && commits > 0
    case OpenSession(req, _, reply, _, commits) => NewRowFor(db, IntentRequest(req), reply) && commits > 0
    case Confirm(i, _, _, commits) =>
      i < |db.books.intents| && db.books.intents[i].HasStripeId()
      && db.books.intents[i].status !in {Succeeded, Canceled, Failed} && commits > 0
    case Cancel(i, _, _, commits) =>
      i < |db.books.intents| && db.books.intents[i].HasStripeId()
      && db.books.intents[i].status !in {Succeeded, Canceled} && commits > 0
    case _ => false
  }

  /** Neither the key nor the Stripe id of the reply is in use, and there is something to pay. */
  predicate NewRowFor(db: Db, req: CreateRequest, reply: Reply) {
    && (forall i :: 0 <= i < |db.books.intents| ==> db.books.intents[i].key != req.key)
    && reply.Reply? && (forall i :: 0 <= i < |db.books.intents| ==> db.books.intents[i].stripeId != Some(reply.id))
    && req.amount >= 1
  }

  /** A reply of `succeeded` that reaches its row. */
  predicate SetByReply(db: Db, a: Action) {
    RepliesSucceeded(a) && ReplyReachesRow(db, a)
  }

  predicate SomeSetByReply(db: Db, actions: seq<Action>)
    decreases actions
  {
    actions != [] && (SetByReply(db, actions[0]) || SomeSetByReply(Step(db, actions[0]), actions[1..]))
  }

  lemma UnreachedRowsAreNotSet(db: Db, a: Action)
    requires Inv(db.books) && !SetByReply(db, a)
    ensures forall c :: c in ChangesOf(db, a) ==> !SetsSucceeded(c)
  {
    if RepliesSucceeded(a) {
      match a
      case Create(req, owner, reply, now, commits) => UnreachedCreate(db, req, owner, reply, now, commits);
      case OpenSession(req, merchant, reply, now, commits) =>
        UnreachedCreate(db, IntentRequest(req), Some(merchant), reply, now, commits);
      case _ =>
    } else {
      OtherRepliesSetNothing(db, a);
    }
  }

  lemma UnreachedCreate(db: Db, req: CreateRequest, owner: Option<string>, reply: Reply, now: Time, commits: nat)
    requires !(NewRowFor(db, req, reply) && commits > 0)
    ensures CreateChanges(db, req, owner, reply, now, commits) == []
  {
    if One(db.books.intents, KeyIs(req.key)).NoRow? && reply.Reply?
      && One(db.books.intents, StripeIdIs(reply.id)).NoRow? {
      assert forall i :: 0 <= i < |db.books.intents| ==>
             !KeyIs(req.key)(db.books.intents[i]) && !StripeIdIs(reply.id)(db.books.intents[i]);
    }
  }

  lemma NewRowIsCreated(db: Db, req: CreateRequest, owner: Option<string>, reply: Reply, now: Time, commits: nat)
    requires NewRowFor(db, req, reply) && ParseStatus(reply.status).Some? && commits > 0
    ensures var after := CreateIntent(db, req, owner, reply, now, commits).0.books;
            && |after.intents| == |db.books.intents| + 1
            && after.intents[|db.books.intents|] == NewIntent(req, owner, reply.id, ParseStatus(reply.status).value)
  {
    assert forall i :: 0 <= i < |db.books.intents| ==>
           !KeyIs(req.key)(db.books.intents[i]) && !StripeIdIs(reply.id)(db.books.intents[i]);
  }

  /** A reply of `succeeded` that reaches its row leaves it SUCCEEDED with nothing received. */
  lemma ReachedRowIsSet(db: Db, a: Action) returns (i: nat)
    requires Inv(db.books) && SetByReply(db, a)
    ensures i < |Step(db, a).books.intents|
    ensures Step(db, a).books.intents[i].status == Succeeded && Step(db, a).books.intents[i].received == 0
  {
    match a
    case Create(req, owner, reply, now, commits) =>
      NewRowIsCreated(db, req, owner, reply, now, commits);
      i := |db.books.intents|;
    case OpenSession(req, merchant, reply, now, commits) =>
      NewRowIsCreated(db, IntentRequest(req), Some(merchant), reply, now, commits);
      i := |db.books.intents|;
    case Confirm(j, reply, now, commits) =>
      i := j;
      assert IntentOk(db.books, i);
    case Cancel(j, reply, now, commits) =>
      i := j;
      assert IntentOk(db.books, i);
  }

  /** SUCCEEDED implies captured exactly as long as it is webhooks that set it: after any run, every
      succeeded intent is captured if and only if no reply of `succeeded` reached a row during it. */
  lemma {:induction false} CapturesComeFromWebhooks(db: Db, actions: seq<Action>)
    requires Inv(db.books) && SucceededAreCaptured(db.books)
    ensures SucceededAreCaptured(Run(db, actions).books) <==> !SomeSetByReply(db, actions)
    decreases actions
  {
    if actions != [] {
      var a, rest := actions[0], actions[1..];
      StepInv(db, a);
      if SetByReply(db, a) {
        var i := ReachedRowIsSet(db, a);
        SucceededByReplyIsNeverCaptured(Step(db, a), rest, i);
        RunAdvances(Step(db, a), rest, i);
      } else {
        StepIsItsChanges(db, a);
        UnreachedRowsAreNotSet(db, a);
        ChangesCapture(db.books, ChangesOf(db, a));
        CapturesComeFromWebhooks(Step(db, a), rest);
      }
    }
  }

  /** A row that became SUCCEEDED by a reply to create, confirm or cancel is never captured. */
  lemma SucceededByReplyIsNeverCaptured(db: Db, actions: seq<Action>, i: nat)
    requires Inv(db.books) && i < |db.books.intents|
    requires db.books.intents[i].status == Succeeded && db.books.intents[i].received == 0
    ensures i < |Run(db, actions).books.intents|
    ensures Run(db, actions).books.intents[i].received == 0 && Captures(Run(db, actions).books, i) == 0
  {
    RunAdvances(db, actions, i);
    RunInv(db, actions);
    assert IntentOk(Run(db, actions).books, i);
  }

  // ----------------------------------------------------------------- sessions

  function Rank(status: SessionStatus): nat {
    match status case Open => 0 case Expired => 1 case Completed => 2
  }

  lemma {:induction false} ChangesRaiseSessions(b: Books, cs: seq<Change>, s: nat)
    requires SoundAll(b, cs) && s < |b.sessions|
    ensures s < |ApplyAll(b, cs).sessions|
    ensures var x, y := b.sessions[s], ApplyAll(b, cs).sessions[s];
            y == x.(status := y.status) && Rank(x.status) <= Rank(y.status)
              && (x != y ==> Rank(x.status) < Rank(y.status))
    decreases cs
  {
    if cs != [] {
      ChangesRaiseSessions(Apply(b, cs[0]), cs[1..], s);
    }
  }

  /** A session keeps its terms, and its status only rises. */
  lemma StepSessions(db: Db, a: Action, s: nat)
    requires s < |db.books.sessions|
    ensures s < |Step(db, a).books.sessions|
    ensures var x, y := db.books.sessions[s], Step(db, a).books.sessions[s];
            y == x.(status := y.status) && Rank(x.status) <= Rank(y.status)
              && (x != y ==> Rank(x.status) < Rank(y.status))
  {
    StepIsItsChanges(db, a);
    ChangesRaiseSessions(db.books, ChangesOf(db, a), s);
  }

  /** How often a run changes a session. */
  function SessionChanges(db: Db, actions: seq<Action>, s: nat): nat
    requires s < |db.books.sessions|
    decreases actions
  {
    if actions == [] then 0
    else
      var db' := Step(db, actions[0]);
      if s < |db'.books.sessions| then
        (if db'.books.sessions[s] != db.books.sessions[s] then 1 else 0) + SessionChanges(db', actions[1..], s)
      else 0
  }

  /** A session changes at most twice in any run, always upwards. */
  lemma {:induction false} SessionsChangeAtMostTwice(db: Db, actions: seq<Action>, s: nat)
    requires s < |db.books.sessions|
    ensures s < |Run(db, actions).books.sessions|
    ensures var x, y := db.books.sessions[s], Run(db, actions).books.sessions[s];
            && y == x.(status := y.status) && Rank(x.status) <= Rank(y.status)
            && SessionChanges(db, actions, s) <= Rank(y.status) - Rank(x.status) <= 2
    decreases actions
  {
    if actions != [] {
      StepSessions(db, actions[0], s);
      SessionsChangeAtMostTwice(Step(db, actions[0]), actions[1..], s);
    }
  }

  /** In every durable state, the one committed in the middle of a webhook included, a completed
      session belongs to an intent that has succeeded, and session and intent agree on the terms. */
  lemma SessionsAgreeWithIntents(actions: seq<Action>, s: nat)
    requires s < |Run(EMPTY_DB, actions).books.sessions|
    ensures var b := Run(EMPTY_DB, actions).books;
            var cs := b.sessions[s];
            && cs.intent.Some? && cs.intent.value < |b.intents|
            && cs.amount == b.intents[cs.intent.value].amount && cs.currency == b.intents[cs.intent.value].currency
            && (cs.status == Completed ==> b.intents[cs.intent.value].status == Succeeded)
            && forall t :: 0 <= t < |b.sessions| && t != s ==> b.sessions[t].intent != cs.intent
  {
    ReachableInv(actions);
    assert SessionOk(Run(EMPTY_DB, actions).books, s);
  }

  // ------------------------------------------------------ create idempotence

  /** A key that is in use decides the answer: the row, or a conflict, and nothing changes. */
  lemma ReplayedKey(db: Db, i: nat, req: CreateRequest, merchant: Option<string>, reply: Reply, now: Time, commits: nat)
    requires Inv(db.books) && i < |db.books.intents| && db.books.intents[i].key == req.key
    ensures CreateIntent(db, req, merchant, reply, now, commits) ==
            (db, if Matches(db.books.intents[i], req) then Done(i) else Raised(IdempotencyConflict))
  {
    var b := db.books;
    assert KeyIs(req.key)(b.intents[i]);
    assert forall j, k :: 0 <= j < k < |b.intents| ==> !(KeyIs(req.key)(b.intents[j]) && KeyIs(req.key)(b.intents[k]));
  }

  /** Once a create has been answered, the same request gets the same row for ever and changes
      nothing, and a request with the same key and other terms is refused and changes nothing. */
  lemma CreateIsIdempotent(db: Db, req: CreateRequest, merchant: Option<string>, reply: Reply, now: Time, commits: nat,
                           actions: seq<Action>, again: CreateRequest, merchant': Option<string>, reply': Reply,
                           now': Time, commits': nat)
    requires Inv(db.books) && CreateIntent(db, req, merchant, reply, now, commits).1.Done? && again.key == req.key
    ensures var (db1, out) := CreateIntent(db, req, merchant, reply, now, commits);
            var db2 := Run(db1, actions);
            var same := again.amount == req.amount && Lower(again.currency) == Lower(req.currency);
            CreateIntent(db2, again, merchant', reply', now', commits') ==
              (db2, if same then out else Raised(IdempotencyConflict))
  {
    var (db1, out) := CreateIntent(db, req, merchant, reply, now, commits);
    StepInv(db, Create(req, merchant, reply, now, commits));
    CreateAnswers(db, req, merchant, reply, now, commits);
    RunInv(db1, actions);
    RunAdvances(db1, actions, out.value);
    ReplayedKey(Run(db1, actions), out.value, again, merchant', reply', now', commits');
  }

  /** The session a request is answered with is the one session of the intent with its key. */
  lemma SessionAnswers(db: Db, req: SessionRequest, merchant: string, reply: Reply, now: Time, commits: nat)
    requires Inv(db.books)
    ensures var (db', out) := CreateSession(db, req, merchant, reply, now, commits);
            out.Done? ==>
              && out.value < |db'.books.sessions| && db'.books.sessions[out.value].intent.Some?
              && var i := db'.books.sessions[out.value].intent.value;
                 i < |db'.books.intents| && db'.books.intents[i].key == req.key
                 && Matches(db'.books.intents[i], IntentRequest(req))
  {
    CreateAnswers(db, IntentRequest(req), Some(merchant), reply, now, commits);
    var (db1, out) := CreateIntent(db, IntentRequest(req), Some(merchant), reply, now, commits);
    if out.Done? {
      var existing := One(db1.books.sessions, SessionOf(out.value));
      if existing.OneRow? {
        assert SessionOf(out.value)(db1.books.sessions[existing.row]);
      }
    }
  }

  lemma {:induction false} RunKeepsSession(db: Db, actions: seq<Action>, s: nat)
    requires s < |db.books.sessions|
    ensures s < |Run(db, actions).books.sessions|
            && Run(db, actions).books.sessions[s].intent == db.books.sessions[s].intent
  {
    SessionsChangeAtMostTwice(db, actions, s);
  }

  /** The same for sessions: after an answered create, whatever runs in between, the same request
      is answered with the same session and changes nothing. */
  lemma CreateSessionIsIdempotent(db: Db, req: SessionRequest, merchant: string, reply: Reply, now: Time, commits: nat,
                                  actions: seq<Action>, merchant': string, reply': Reply, now': Time, commits': nat)
    requires Inv(db.books) && CreateSession(db, req, merchant, reply, now, commits).1.Done?
    ensures var (db1, out) := CreateSession(db, req, merchant, reply, now, commits);
            var db2 := Run(db1, actions);
            CreateSession(db2, req, merchant', reply', now', commits') == (db2, out)
  {
    var (db1, out) := CreateSession(db, req, merchant, reply, now, commits);
    StepInv(db, OpenSession(req, merchant, reply, now, commits));
    SessionAnswers(db, req, merchant, reply, now, commits);
    var i, db2 := db1.books.sessions[out.value].intent.value, Run(db1, actions);
    RunInv(db1, actions);
    RunAdvances(db1, actions, i);
    RunKeepsSession(db1, actions, out.value);
    ReplayedKey(db2, i, IntentRequest(req), Some(merchant'), reply', now', commits');
    assert SessionOf(i)(db2.books.sessions[out.value]);
    SessionLookup(db2.books, i);
  }

  ghost predicate HasSession(b: Books, i: nat) {
    exists s :: 0 <= s < |b.sessions| && b.sessions[s].intent == Some(i)
  }

  /** A session request whose key has a row on the same terms, and so needs one commit at most: it is
      answered with the one session of that intent, adding it where there is none. */
  lemma SessionForRow(db: Db, req: SessionRequest, merchant: string, reply: Reply, now: Time, commits: nat, i: nat)
    requires Inv(db.books) && i < |db.books.intents| && db.books.intents[i].key == req.key
    requires Matches(db.books.intents[i], IntentRequest(req)) && commits > 0
    ensures var (after, out) := CreateSession(db, req, merchant, reply, now, commits);
            && after.books == db.books.(sessions := db.books.sessions
                 + if HasSession(db.books, i) then [] else [NewSession(req, merchant, i, now)])
            && out.Done? && out.value < |after.books.sessions|
            && forall t :: 0 <= t < |after.books.sessions| ==>
                 (after.books.sessions[t].intent == Some(i) <==> t == out.value)
  {
    var b := db.books;
    ReplayedKey(db, i, IntentRequest(req), Some(merchant), reply, now, commits);
    SessionLookup(b, i);
    var found := One(b.sessions, SessionOf(i));
    if found.OneRow? {
      assert SessionOf(i)(b.sessions[found.row]) && HasSession(b, i);
      assert b.sessions + [] == b.sessions;
      assert forall t :: 0 <= t < |b.sessions| && SessionOf(i)(b.sessions[t]) ==> t == found.row;
    } else {
      assert forall t :: 0 <= t < |b.sessions| ==> !SessionOf(i)(b.sessions[t]);
    }
  }

  /** A session request that got as far as its intent, and died before its session was there or not, is
      repaired by any later one. Whatever ran in between, a retry by any clock, with any reply of
      Stripe's, is answered with the one session of that intent; it leaves intents and ledger alone,
      and adds the session if and only if there is none yet. */
  lemma DeadAttemptsAreRepaired(db: Db, req: SessionRequest, merchant: string, reply: Reply, now: Time, commits: nat,
                                actions: seq<Action>, merchant': string, reply': Reply, now': Time, commits': nat)
    requires Inv(db.books) && CreateIntent(db, IntentRequest(req), Some(merchant), reply, now, commits).1.Done?
    requires commits' > 0
    ensures var i := CreateIntent(db, IntentRequest(req), Some(merchant), reply, now, commits).1.value;
            var later := Run(CreateSession(db, req, merchant, reply, now, commits).0, actions);
            var (after, out) := CreateSession(later, req, merchant', reply', now', commits');
            && after.books == later.books.(sessions := later.books.sessions
                 + if HasSession(later.books, i) then [] else [NewSession(req, merchant', i, now')])
            && out.Done? && out.value < |after.books.sessions|
            && forall t :: 0 <= t < |after.books.sessions| ==>
                 (after.books.sessions[t].intent == Some(i) <==> t == out.value)
  {
    var (db1, out) := CreateIntent(db, IntentRequest(req), Some(merchant), reply, now, commits);
    var db2 := CreateSession(db, req, merchant, reply, now, commits).0;
    CreateAnswers(db, IntentRequest(req), Some(merchant), reply, now, commits);
    SessionKeepsIntents(db, req, merchant, reply, now, commits);
    StepInv(db, OpenSession(req, merchant, reply, now, commits));
    RunAdvances(db2, actions, out.value);
    RunInv(db2, actions);
    SessionForRow(Run(db2, actions), req, merchant', reply', now', commits', out.value);
  }

  lemma SessionKeepsIntents(db: Db, req: SessionRequest, merchant: string, reply: Reply, now: Time, commits: nat)
    ensures var created := CreateIntent(db, IntentRequest(req), Some(merchant), reply, now, commits).0;
            var after := CreateSession(db, req, merchant, reply, now, commits).0;
            after.books.intents == created.books.intents && after.books.ledger == created.books.ledger
  {
  }

  // ---------------------------------------------------------------- atomicity

  predicate Answered(db: Db, a: Action) {
    match a
    case Create(req, owner, reply, now, commits) => CreateIntent(db, req, owner, reply, now, commits).1.Done?
    case Confirm(i, reply, now, commits) => ConfirmIntent(db, i, reply, now, commits).1.Done?
    case Cancel(i, reply, now, commits) => CancelIntent(db, i, reply, now, commits).1.Done?
    case Refund(i, amount, reply, now, commits) => RefundIntent(db, i, amount, reply, now, commits).1.Done?
    case OpenSession(req, merchant, reply, now, commits) =>
      CreateSession(db, req, merchant, reply, now, commits).1.Done?
    case ViewSession(s, now, commits) => GetOpenSession(db, s, now, commits).1.Done?
    case Webhook(d) => Deliver(db, d).1.Done?
  }

  /** A request that is rejected or dies leaves no trace, with two exceptions: a session whose
      creation dies between its two commits leaves its intent, and a webhook that fails or dies
      after completing a session leaves the books of a complete delivery, its event unprocessed. */
  lemma FailuresLeaveNoTrace(db: Db, a: Action)
    requires Inv(db.books) && !Answered(db, a)
    ensures match a
            case OpenSession(req, merchant, reply, now, commits) =>
              Step(db, a) == db
              || (commits == 1 && Step(db, a) == Step(db, Create(IntentRequest(req), Some(merchant), reply, now, 1)))
            case Webhook(d) =>
              && !Processed(Step(db, a), d.event.id)
              && (Step(db, a).books == db.books
                  || Step(db, a).books == Deliver(db, d.(glitch := Smooth, commits := 2)).0.books)
            case _ => Step(db, a) == db
  {
    match a
    case OpenSession(req, merchant, reply, now, commits) => OpeningLeaves(db, req, merchant, reply, now, commits);
    case Webhook(d) => DeliveryLeaves(db, d);
    case _ => RequestLeaves(db, a);
  }

  lemma OpeningLeaves(db: Db, req: SessionRequest, merchant: string, reply: Reply, now: Time, commits: nat)
    requires Inv(db.books) && !CreateSession(db, req, merchant, reply, now, commits).1.Done?
    ensures var after := CreateSession(db, req, merchant, reply, now, commits).0;
            after == db || (commits == 1
                            && after == CreateIntent(db, IntentRequest(req), Some(merchant), reply, now, 1).0)
  {
    if CreateIntent(db, IntentRequest(req), Some(merchant), reply, now, commits).1.Done? {
      StepInv(db, Create(IntentRequest(req), Some(merchant), reply, now, commits));
    }
  }

  lemma DeliveryLeaves(db: Db, d: Delivery)
    requires !Deliver(db, d).1.Done?
    ensures var after := Deliver(db, d).0;
            && !Processed(after, d.event.id)
            && (after.books == db.books || after.books == Deliver(db, d.(glitch := Smooth, commits := 2)).0.books)
  {
  }

  lemma RequestLeaves(db: Db, a: Action)
    requires !Answered(db, a) && !a.OpenSession? && !a.Webhook?
    ensures Step(db, a) == db
  {
  }

  // ------------------------------------------------------------------ stamps

  function TimeOf(a: Action): Time {
    if a.Webhook? then a.delivery.now else a.now
  }

  /** The stamps of the rows after `now`: changed rows are updated then, new rows also created then. */
  ghost predicate StampsFollow(db: Db, after: Db, now: Time) {
    && |db.stamps| == |db.books.intents| && |after.stamps| == |after.books.intents| >= |db.books.intents|
    && forall i :: 0 <= i < |after.stamps| ==>
         after.stamps[i] ==
           if i >= |db.books.intents| then Stamp(now, now)
           else if after.books.intents[i] != db.books.intents[i] then db.stamps[i].(updated := now)
           else db.stamps[i]
  }

  lemma SaveFollows(db: Db, b: Books, now: Time)
    requires |db.stamps| == |db.books.intents| <= |b.intents|
    ensures StampsFollow(db, Save(db, b, now), now)
  {
  }

  lemma CreateFollows(db: Db, req: CreateRequest, merchant: Option<string>, reply: Reply, now: Time, commits: nat)
    requires |db.stamps| == |db.books.intents|
    ensures StampsFollow(db, CreateIntent(db, req, merchant, reply, now, commits).0, now)
  {
  }

  lemma OpenFollows(db: Db, req: SessionRequest, merchant: string, reply: Reply, now: Time, commits: nat)
    requires |db.stamps| == |db.books.intents|
    ensures StampsFollow(db, CreateSession(db, req, merchant, reply, now, commits).0, now)
  {
    var (db1, out) := CreateIntent(db, IntentRequest(req), Some(merchant), reply, now, commits);
    CreateFollows(db, IntentRequest(req), Some(merchant), reply, now, commits);
    if out.Done? {
      SaveFollows(db1, AddSession(db1.books, NewSession(req, merchant, out.value, now)), now);
    }
  }

  lemma DeliveryFollows(db: Db, d: Delivery)
    requires |db.stamps| == |db.books.intents|
    ensures StampsFollow(db, Deliver(db, d).0, d.now)
  {
    if Dispatch(db.books, d.event).Applied? {
      SaveFollows(db, Dispatch(db.books, d.event).books, d.now);
    }
  }

  lemma RequestFollows(db: Db, a: Action)
    requires |db.stamps| == |db.books.intents|
    requires a.Confirm? || a.Cancel? || a.Refund? || a.ViewSession?
    ensures StampsFollow(db, Step(db, a), a.now)
  {
    forall b: Books | |b.intents| == |db.books.intents| ensures StampsFollow(db, Save(db, b, a.now), a.now) {
      SaveFollows(db, b, a.now);
    }
  }

  /** `updated_at`, by which the reconciliation finds its rows, moves exactly with the row, and
      `created_at` never moves. */
  lemma StampsFollowRows(db: Db, a: Action)
    requires |db.stamps| == |db.books.intents|
    ensures StampsFollow(db, Step(db, a), TimeOf(a))
  {
    match a
    case OpenSession(req, merchant, reply, now, commits) => OpenFollows(db, req, merchant, reply, now, commits);
    case Create(req, owner, reply, now, commits) => CreateFollows(db, req, owner, reply, now, commits);
    case Webhook(d) => DeliveryFollows(db, d);
    case _ => RequestFollows(db, a);
  }
}
