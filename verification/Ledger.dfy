/** The double-entry ledger: `record_transaction`, the balance query, and the zero-sum law. */
module Ledger {
  import opened Common

  datatype Direction = Debit | Credit

  datatype Leg = Leg(account: string, direction: Direction, amount: int)

  /** A transaction id is either supplied by the caller or generated. A generated id is the
      ledger position of the first leg, which no other generated id shares. */
  datatype TxnId = Generated(position: nat) | Supplied(id: string)

  datatype Entry = Entry(txn: TxnId, account: string, direction: Direction, amount: int,
                         currency: string, intent: Option<nat>, description: string)

  datatype LedgerError = TooFewLegs | Unbalanced | NonPositiveLeg

  function Signed(e: Entry): int {
    if e.direction == Credit then e.amount else -e.amount
  }

  function DebitAmount(leg: Leg): int {
    if leg.direction == Debit then leg.amount else 0
  }

  function CreditAmount(leg: Leg): int {
    if leg.direction == Credit then leg.amount else 0
  }

  /** The rows a transaction inserts, one per leg. */
  function EntriesOf(legs: seq<Leg>, txn: TxnId, currency: string, intent: Option<nat>,
                     description: string): (es: seq<Entry>)
    ensures |es| == |legs|
  {
    if legs == [] then []
    else
      var n := |legs| - 1;
      EntriesOf(legs[..n], txn, currency, intent, description)
      + [Entry(txn, legs[n].account, legs[n].direction, legs[n].amount, currency, intent, description)]
  }

  /** One call of `record_transaction`, without the free-form metadata. */
  datatype Call = Call(legs: seq<Leg>, currency: string, intent: Option<nat>, description: string, txn: Option<string>)

  /** The rows `record_transaction` adds to the ledger, or the invariant it finds violated. */
  function Record(ledger: seq<Entry>, c: Call): Result<seq<Entry>, LedgerError> {
    if |c.legs| < 2 then Err(TooFewLegs)
    else if Sum(c.legs, DebitAmount) != Sum(c.legs, CreditAmount) then Err(Unbalanced)
    else if exists i :: 0 <= i < |c.legs| && c.legs[i].amount <= 0 then Err(NonPositiveLeg)
    else
      var txn := if c.txn.Some? && c.txn.value != "" then Supplied(c.txn.value) else Generated(|ledger|);
      Ok(EntriesOf(c.legs, txn, Lower(c.currency), c.intent, c.description))
  }

  /** The ledger after a list of calls, each of which adds all of its rows or none. */
  function RecordAll(calls: seq<Call>): seq<Entry> {
    if calls == [] then []
    else
      var before := RecordAll(calls[..|calls| - 1]);
      match Record(before, calls[|calls| - 1])
      case Ok(es) => before + es
      case Err(_) => before
  }

  // ------------------------------------------------------------ zero-sum law

  /** A scope selects entries by the three columns that all legs of a transaction share. */
  type Scope = (TxnId, string, Option<nat>) -> bool

  function InScope(scope: Scope): Entry -> int {
    (e: Entry) => if scope(e.txn, e.currency, e.intent) then Signed(e) else 0
  }

  lemma {:induction false} EntriesInScope(legs: seq<Leg>, txn: TxnId, currency: string, intent: Option<nat>,
                                          description: string, scope: Scope)
    ensures Sum(EntriesOf(legs, txn, currency, intent, description), InScope(scope)) ==
            if scope(txn, currency, intent) then Sum(legs, CreditAmount) - Sum(legs, DebitAmount) else 0
  {
    if legs != [] {
      var n := |legs| - 1;
      EntriesInScope(legs[..n], txn, currency, intent, description, scope);
      SumSnoc(EntriesOf(legs[..n], txn, currency, intent, description),
              Entry(txn, legs[n].account, legs[n].direction, legs[n].amount, currency, intent, description),
              InScope(scope));
    }
  }

  /** One accepted transaction adds nothing to any scope. */
  lemma RecordKeepsScope(ledger: seq<Entry>, c: Call, scope: Scope)
    requires Record(ledger, c).Ok?
    ensures Sum(ledger + Record(ledger, c).value, InScope(scope)) == Sum(ledger, InScope(scope))
  {
    var es := Record(ledger, c).value;
    var txn := if c.txn.Some? && c.txn.value != "" then Supplied(c.txn.value) else Generated(|ledger|);
    SumAppend(ledger, es, InScope(scope));
    EntriesInScope(c.legs, txn, Lower(c.currency), c.intent, c.description, scope);
  }

  lemma {:induction false} EntryAt(legs: seq<Leg>, txn: TxnId, currency: string, intent: Option<nat>,
                                   description: string, k: nat)
    requires k < |legs|
    ensures EntriesOf(legs, txn, currency, intent, description)[k] ==
            Entry(txn, legs[k].account, legs[k].direction, legs[k].amount, currency, intent, description)
  {
    var n := |legs| - 1;
    if k < n {
      EntryAt(legs[..n], txn, currency, intent, description, k);
    }
  }

  /** A call is accepted exactly if it has two legs or more, they balance, and all are positive; the first
      of these that fails is the error. */
  lemma WhenRecorded(ledger: seq<Entry>, c: Call)
    ensures var balanced := Sum(c.legs, DebitAmount) == Sum(c.legs, CreditAmount);
            var r := Record(ledger, c);
            && (r.Ok? <==> |c.legs| >= 2 && balanced && forall leg :: leg in c.legs ==> leg.amount >= 1)
            && (r == Err(TooFewLegs) <==> |c.legs| <= 1)
            && (r == Err(Unbalanced) <==> |c.legs| >= 2 && !balanced)
  {
  }

  /** What an accepted call appends: one row per leg, in order, with the leg's account, direction and amount
      and the call's lower-case currency, intent and description, all under one transaction id. It
      is the id the caller supplied, if that is not empty, and otherwise one no row has yet. */
  lemma RecordedRows(calls: seq<Call>, c: Call, k: nat)
    requires Record(RecordAll(calls), c).Ok? && k < |c.legs|
    ensures var ledger, es := RecordAll(calls), Record(RecordAll(calls), c).value;
            && |es| == |c.legs| && es[k].txn == es[0].txn
            && es[k].account == c.legs[k].account && es[k].direction == c.legs[k].direction
            && es[k].amount == c.legs[k].amount && es[k].currency == Lower(c.currency)
            && es[k].intent == c.intent && es[k].description == c.description
            && (if c.txn.Some? && c.txn.value != "" then es[k].txn == Supplied(c.txn.value)
                else es[k].txn.Generated? && forall e :: e in ledger ==> e.txn != es[k].txn)
  {
    var txn := if c.txn.Some? && c.txn.value != "" then Supplied(c.txn.value) else Generated(|RecordAll(calls)|);
    EntryAt(c.legs, txn, Lower(c.currency), c.intent, c.description, k);
    EntryAt(c.legs, txn, Lower(c.currency), c.intent, c.description, 0);
    GeneratedBefore(calls);
  }

  lemma {:induction false} GeneratedBefore(calls: seq<Call>)
    ensures forall e :: e in RecordAll(calls) && e.txn.Generated? ==> e.txn.position < |RecordAll(calls)|
  {
    if calls != [] {
      var earlier, c := calls[..|calls| - 1], calls[|calls| - 1];
      GeneratedBefore(earlier);
      if Record(RecordAll(earlier), c).Ok? {
        var ledger, es := RecordAll(earlier), Record(RecordAll(earlier), c).value;
        var txn := if c.txn.Some? && c.txn.value != "" then Supplied(c.txn.value) else Generated(|ledger|);
        forall e | e in es && e.txn.Generated? ensures e.txn.position < |ledger| + |es| {
          var k :| 0 <= k < |es| && es[k] == e;
          EntryAt(c.legs, txn, Lower(c.currency), c.intent, c.description, k);
        }
      }
    }
  }

  /** No row has the id the next transaction will be given. */
  lemma NextIdIsFresh(ledger: seq<Entry>)
    requires Recorded(ledger)
    ensures forall e :: e in ledger ==> e.txn != Generated(|ledger|)
  {
    var calls :| RecordAll(calls) == ledger;
    GeneratedBefore(calls);
  }

  /** After any calls, accepted or refused and with transaction ids reused at will, every scope
      nets to zero: per currency, per transaction, per intent, per set of intents. */
  lemma {:induction false} ZeroAtEveryScope(calls: seq<Call>, scope: Scope)
    ensures Sum(RecordAll(calls), InScope(scope)) == 0
  {
    if calls != [] {
      var earlier := calls[..|calls| - 1];
      var c := calls[|calls| - 1];
      ZeroAtEveryScope(earlier, scope);
      if Record(RecordAll(earlier), c).Ok? {
        RecordKeepsScope(RecordAll(earlier), c, scope);
      }
    }
  }

  /** A ledger that only `record_transaction` has written. */
  ghost predicate Recorded(ledger: seq<Entry>) {
    exists calls :: RecordAll(calls) == ledger
  }

  lemma RecordedStep(ledger: seq<Entry>, c: Call)
    requires Recorded(ledger) && Record(ledger, c).Ok?
    ensures Recorded(ledger + Record(ledger, c).value)
  {
    var calls :| RecordAll(calls) == ledger;
    assert (calls + [c])[..|calls|] == calls;
    assert RecordAll(calls + [c]) == ledger + Record(ledger, c).value;
  }

  lemma RecordedScope(ledger: seq<Entry>, scope: Scope)
    requires Recorded(ledger)
    ensures Sum(ledger, InScope(scope)) == 0
  {
    var calls :| RecordAll(calls) == ledger;
    ZeroAtEveryScope(calls, scope);
  }

  /** Every row on the ledger carries a positive amount, whatever calls were made. */
  lemma {:induction false} RowsArePositive(calls: seq<Call>)
    ensures forall e :: e in RecordAll(calls) ==> e.amount > 0
  {
    if calls != [] {
      var earlier := calls[..|calls| - 1];
      var c := calls[|calls| - 1];
      RowsArePositive(earlier);
      if Record(RecordAll(earlier), c).Ok? {
        EntriesArePositive(c.legs, if c.txn.Some? && c.txn.value != "" then Supplied(c.txn.value)
                                   else Generated(|RecordAll(earlier)|),
                           Lower(c.currency), c.intent, c.description);
      }
    }
  }

  lemma {:induction false} EntriesArePositive(legs: seq<Leg>, txn: TxnId, currency: string, intent: Option<nat>,
                                              description: string)
    requires forall i :: 0 <= i < |legs| ==> legs[i].amount > 0
    ensures forall e :: e in EntriesOf(legs, txn, currency, intent, description) ==> e.amount > 0
  {
    if legs != [] {
      EntriesArePositive(legs[..|legs| - 1], txn, currency, intent, description);
    }
  }

  // --------------------------------------------------------- two-leg bookings

  /** The call behind every gateway booking: debit one account, credit another. */
  function TransferCall(intent: nat, debit: string, credit: string, amount: int, currency: string,
                        description: string): Call {
    Call([Leg(debit, Debit, amount), Leg(credit, Credit, amount)], currency, Some(intent), description, None)
  }

  /** The ledger with one such booking appended. */
  function Transfer(ledger: seq<Entry>, intent: nat, debit: string, credit: string, amount: int,
                    currency: string, description: string): seq<Entry>
  {
    ledger
    + [Entry(Generated(|ledger|), debit, Debit, amount, Lower(currency), Some(intent), description)]
    + [Entry(Generated(|ledger|), credit, Credit, amount, Lower(currency), Some(intent), description)]
  }

  lemma TransferRecords(ledger: seq<Entry>, intent: nat, debit: string, credit: string, amount: int,
                        currency: string, description: string)
    ensures var r := Record(ledger, TransferCall(intent, debit, credit, amount, currency, description));
            if amount <= 0 then r == Err(NonPositiveLeg)
            else r.Ok? && ledger + r.value == Transfer(ledger, intent, debit, credit, amount, currency, description)
  {
    var a, b := Leg(debit, Debit, amount), Leg(credit, Credit, amount);
    var c := TransferCall(intent, debit, credit, amount, currency, description);
    assert c.legs == [] + [a] + [b];
    SumSnoc([], a, DebitAmount);
    SumSnoc([], a, CreditAmount);
    SumSnoc([] + [a], b, DebitAmount);
    SumSnoc([] + [a], b, CreditAmount);
    assert c.legs[0].amount == amount;
    assert c.legs[..1] == [a];
    assert [a][..0] == [];
    if amount > 0 {
      var es := Record(ledger, c).value;
      var txn := Generated(|ledger|);
      assert EntriesOf([a], txn, Lower(currency), Some(intent), description)
          == [Entry(txn, debit, Debit, amount, Lower(currency), Some(intent), description)];
      assert es == EntriesOf([a], txn, Lower(currency), Some(intent), description)
                   + [Entry(txn, credit, Credit, amount, Lower(currency), Some(intent), description)];
    }
  }

  // ------------------------------------------------------ positions and counts

  /** The signed amount an entry adds to one account of one intent. */
  function Position(intent: nat, account: string): Entry -> int {
    (e: Entry) => if e.intent == Some(intent) && e.account == account then Signed(e) else 0
  }

  /** Counts the bookings of one kind made for one intent, one per debit leg. */
  function Bookings(intent: nat, description: string): Entry -> int {
    (e: Entry) => if e.intent == Some(intent) && e.direction == Debit && e.description == description then 1 else 0
  }

  lemma TransferPosition(ledger: seq<Entry>, intent: nat, debit: string, credit: string, amount: int,
                         currency: string, description: string, j: nat, account: string)
    ensures Sum(Transfer(ledger, intent, debit, credit, amount, currency, description), Position(j, account)) ==
            Sum(ledger, Position(j, account))
            + (if j == intent && account == credit then amount else 0)
            - (if j == intent && account == debit then amount else 0)
  {
    var d := Entry(Generated(|ledger|), debit, Debit, amount, Lower(currency), Some(intent), description);
    var c := Entry(Generated(|ledger|), credit, Credit, amount, Lower(currency), Some(intent), description);
    SumSnoc(ledger, d, Position(j, account));
    SumSnoc(ledger + [d], c, Position(j, account));
  }

  lemma TransferBookings(ledger: seq<Entry>, intent: nat, debit: string, credit: string, amount: int,
                         currency: string, description: string, j: nat, kind: string)
    ensures Sum(Transfer(ledger, intent, debit, credit, amount, currency, description), Bookings(j, kind)) ==
            Sum(ledger, Bookings(j, kind)) + (if j == intent && kind == description then 1 else 0)
  {
    var d := Entry(Generated(|ledger|), debit, Debit, amount, Lower(currency), Some(intent), description);
    var c := Entry(Generated(|ledger|), credit, Credit, amount, Lower(currency), Some(intent), description);
    SumSnoc(ledger, d, Bookings(j, kind));
    SumSnoc(ledger + [d], c, Bookings(j, kind));
  }
}
