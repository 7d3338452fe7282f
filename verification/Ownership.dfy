/** Create keys are shared by all merchants: whose intent a request is answered with, and when a
    session belongs to the merchant of its intent. */
module Ownership {
  import opened Common
  import opened Ledger
  import opened Books
  import opened Operations
  import opened Runs
  import opened Lifecycle

  /** A row has the key, and it is not the caller's. */
  ghost predicate UsedByAnother(b: Books, key: string, merchant: Option<string>) {
    exists i :: 0 <= i < |b.intents| && b.intents[i].key == key && b.intents[i].merchant != merchant
  }

  /** A create is answered with the caller's own intent exactly unless the key is another's. */
  lemma AnswerIsOwnUnlessKeyIsUsed(db: Db, req: CreateRequest, merchant: Option<string>, reply: Reply, now: Time,
                                   commits: nat)
    requires Inv(db.books) && CreateIntent(db, req, merchant, reply, now, commits).1.Done?
    ensures var (db', out) := CreateIntent(db, req, merchant, reply, now, commits);
            out.value < |db'.books.intents| &&
            (db'.books.intents[out.value].merchant == merchant <==> !UsedByAnother(db.books, req.key, merchant))
  {
    CreateAnswers(db, req, merchant, reply, now, commits);
    var found := One(db.books.intents, KeyIs(req.key));
    if found.OneRow? {
      assert KeyIs(req.key)(db.books.intents[found.row]);
      assert forall i :: 0 <= i < |db.books.intents| && KeyIs(req.key)(db.books.intents[i]) ==> i == found.row;
    } else {
      assert forall i :: 0 <= i < |db.books.intents| ==> !KeyIs(req.key)(db.books.intents[i]);
    }
  }

  ghost predicate OwnedAt(b: Books, s: nat)
    requires s < |b.sessions|
  {
    var cs := b.sessions[s];
    cs.intent.Some? && cs.intent.value < |b.intents| && b.intents[cs.intent.value].merchant == Some(cs.merchant)
  }

  /** Every session belongs to the merchant of its intent. */
  ghost predicate SessionsOwned(b: Books) {
    forall s :: 0 <= s < |b.sessions| ==> OwnedAt(b, s)
  }

  /** A session request under a key whose row has the same terms, is not the caller's and has
      no session yet, in a process that lives to commit. */
  ghost predicate OpensForeign(db: Db, a: Action) {
    && a.OpenSession? && a.commits > 0
    && exists i :: ForeignRow(db.books, a.opening, a.merchant, i)
  }

  ghost predicate ForeignRow(b: Books, req: SessionRequest, merchant: string, i: int) {
    && 0 <= i < |b.intents| && b.intents[i].key == req.key && b.intents[i].merchant != Some(merchant)
    && b.intents[i].amount == req.amount && b.intents[i].currency == Lower(req.currency)
    && forall s :: 0 <= s < |b.sessions| ==> b.sessions[s].intent != Some(i)
  }

  // ------------------------------------------------------------------ changes

  lemma {:induction false} ChangesKeepOwners(b: Books, cs: seq<Change>)
    requires Inv(b) && SoundAll(b, cs) && SessionsOwned(b) && forall c :: c in cs ==> !c.SessionAdded?
    ensures SessionsOwned(ApplyAll(b, cs))
    decreases cs
  {
    if cs != [] {
      assert !cs[0].SessionAdded?;
      ChangeKeepsOwners(b, cs[0]);
      ApplyInv(b, cs[0]);
      ChangesKeepOwners(Apply(b, cs[0]), cs[1..]);
    }
  }

  lemma ChangeKeepsOwners(b: Books, c: Change)
    requires Inv(b) && Sound(b, c) && SessionsOwned(b) && !c.SessionAdded?
    ensures SessionsOwned(Apply(b, c))
  {
    var after := Apply(b, c);
    forall s | 0 <= s < |after.sessions| ensures OwnedAt(after, s) {
      assert OwnedAt(b, s);
      ChangeAdvances(b, c, b.sessions[s].intent.value);
    }
  }

  lemma OnlyOpeningAddsSessions(db: Db, a: Action)
    requires !a.OpenSession?
    ensures forall c :: c in ChangesOf(db, a) ==> !c.SessionAdded?
  {
  }

  /** A session that is not its intent's merchant's stays so. */
  lemma ForeignStays(db: Db, actions: seq<Action>, s: nat)
    requires Inv(db.books) && s < |db.books.sessions| && !OwnedAt(db.books, s)
    ensures !SessionsOwned(Run(db, actions).books)
  {
    var after := Run(db, actions);
    assert SessionOk(db.books, s);
    RunAdvances(db, actions, db.books.sessions[s].intent.value);
    SessionsChangeAtMostTwice(db, actions, s);
    assert !OwnedAt(after.books, s);
  }

  // ----------------------------------------------------------------- sessions

  /** The intent part of a session request keeps the owners of all sessions. */
  lemma CreatingKeepsOwners(db: Db, req: SessionRequest, merchant: string, reply: Reply, now: Time, commits: nat)
    requires Inv(db.books) && SessionsOwned(db.books)
    ensures var db1 := CreateIntent(db, IntentRequest(req), Some(merchant), reply, now, commits).0;
            Inv(db1.books) && SessionsOwned(db1.books)
  {
    var a := Create(IntentRequest(req), Some(merchant), reply, now, commits);
    StepInv(db, a);
    StepIsItsChanges(db, a);
    ChangesKeepOwners(db.books, ChangesOf(db, a));
  }

  /** A session request keeps it exactly unless it opens a session for another's intent. */
  lemma OpeningKeepsOwners(db: Db, req: SessionRequest, merchant: string, reply: Reply, now: Time, commits: nat)
    requires Inv(db.books) && SessionsOwned(db.books)
    ensures var a := OpenSession(req, merchant, reply, now, commits);
            SessionsOwned(Step(db, a).books) <==> !OpensForeign(db, a)
  {
    var a := OpenSession(req, merchant, reply, now, commits);
    var (db1, out) := CreateIntent(db, IntentRequest(req), Some(merchant), reply, now, commits);
    CreatingKeepsOwners(db, req, merchant, reply, now, commits);
    if exists i :: ForeignRow(db.books, req, merchant, i) {
      var i :| ForeignRow(db.books, req, merchant, i);
      ReplayedKey(db, i, IntentRequest(req), Some(merchant), reply, now, commits);
      assert forall s :: 0 <= s < |db.books.sessions| ==> !SessionOf(i)(db.books.sessions[s]);
      if commits > 0 {
        assert !OwnedAt(Step(db, a).books, |db.books.sessions|);
      }
    } else if out.Done? {
      OpeningOwn(db, req, merchant, reply, now, commits);
    }
  }

  lemma OpeningOwn(db: Db, req: SessionRequest, merchant: string, reply: Reply, now: Time, commits: nat)
    requires Inv(db.books) && SessionsOwned(db.books)
    requires CreateIntent(db, IntentRequest(req), Some(merchant), reply, now, commits).1.Done?
    requires !exists i :: ForeignRow(db.books, req, merchant, i)
    ensures SessionsOwned(CreateSession(db, req, merchant, reply, now, commits).0.books)
  {
    var (db1, out) := CreateIntent(db, IntentRequest(req), Some(merchant), reply, now, commits);
    var after := CreateSession(db, req, merchant, reply, now, commits).0.books;
    CreatingKeepsOwners(db, req, merchant, reply, now, commits);
    AnswerIsOwnUnlessKeyIsUsed(db, IntentRequest(req), Some(merchant), reply, now, commits);
    if after != db1.books {
      var i := out.value;
      assert forall s :: 0 <= s < |db1.books.sessions| ==> !SessionOf(i)(db1.books.sessions[s]);
      assert after == AddSession(db1.books, NewSession(req, merchant, i, now));
      AnswerHasTerms(db, req, merchant, reply, now, commits);
      assert db1.books.intents[i].merchant == Some(merchant);
      forall s | 0 <= s < |after.sessions| ensures OwnedAt(after, s) {
        if s < |db1.books.sessions| { assert OwnedAt(db1.books, s); }
      }
    }
  }

  /** If the answer is a row of another merchant, that row was there before, on the request's terms. */
  lemma AnswerHasTerms(db: Db, req: SessionRequest, merchant: string, reply: Reply, now: Time, commits: nat)
    requires Inv(db.books) && CreateIntent(db, IntentRequest(req), Some(merchant), reply, now, commits).1.Done?
    ensures var (db1, out) := CreateIntent(db, IntentRequest(req), Some(merchant), reply, now, commits);
            out.value < |db1.books.intents| &&
            (db1.books.intents[out.value].merchant != Some(merchant)
             && (forall s :: 0 <= s < |db1.books.sessions| ==> db1.books.sessions[s].intent != Some(out.value))
             ==> ForeignRow(db.books, req, merchant, out.value))
  {
    CreateAnswers(db, IntentRequest(req), Some(merchant), reply, now, commits);
  }

  lemma StepKeepsOwners(db: Db, a: Action)
    requires Inv(db.books) && SessionsOwned(db.books)
    ensures SessionsOwned(Step(db, a).books) <==> !OpensForeign(db, a)
  {
    if a.OpenSession? {
      OpeningKeepsOwners(db, a.opening, a.merchant, a.reply, a.now, a.commits);
    } else {
      StepIsItsChanges(db, a);
      OnlyOpeningAddsSessions(db, a);
      ChangesKeepOwners(db.books, ChangesOf(db, a));
    }
  }

  ghost predicate SomeOpensForeign(db: Db, actions: seq<Action>)
    decreases actions
  {
    actions != [] && (OpensForeign(db, actions[0]) || SomeOpensForeign(Step(db, actions[0]), actions[1..]))
  }

  /** After any run every session belongs to the merchant of its intent if and only if no request of the
      run opened a session under a key whose intent is not the caller's. */
  lemma {:induction false} SessionsOwnedIffNoneForeign(db: Db, actions: seq<Action>)
    requires Inv(db.books) && SessionsOwned(db.books)
    ensures SessionsOwned(Run(db, actions).books) <==> !SomeOpensForeign(db, actions)
    decreases actions
  {
    if actions != [] {
      var a, rest := actions[0], actions[1..];
      StepInv(db, a);
      StepKeepsOwners(db, a);
      if OpensForeign(db, a) {
        var s :| 0 <= s < |Step(db, a).books.sessions| && !OwnedAt(Step(db, a).books, s);
        ForeignStays(Step(db, a), rest, s);
      } else {
        SessionsOwnedIffNoneForeign(Step(db, a), rest);
      }
    }
  }
}
