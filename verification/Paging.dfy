/** Walking Stripe's cursor-paged list of balance transactions. */
module Paging {
  import opened Common

  datatype IntentRef = NoIntent | IntentId(id: string) | IntentObject(objectId: Option<string>)

  /** The `source` of a balance transaction: absent, not expanded, or an object that refers to a
      payment intent by id or as an object. */
  datatype Source = NoSource | Unexpanded(sourceId: string) | Expanded(intent: IntentRef)

  datatype BalanceTransaction = BalanceTransaction(id: string, created: int, kind: string, amount: int, source: Source)

  type BT = BalanceTransaction

  datatype Query = Query(gte: int, lt: int, kind: Option<string>, after: Option<string>)

  datatype Page = Page(data: seq<BT>, hasMore: bool)

  /** What a query selects, cursor aside. */
  function Selects(gte: int, lt: int, kind: Option<string>): BT -> bool {
    (bt: BT) => gte <= bt.created < lt && (kind.None? || bt.kind == kind.value)
  }

  function Selected(all: seq<BT>, q: Query): seq<BT> {
    Filter(all, Selects(q.gte, q.lt, q.kind))
  }

  function IdIs(id: string): BT -> bool {
    (bt: BT) => bt.id == id
  }

  /** The position a cursor stands for: just behind the item it names. */
  function Start(items: seq<BT>, after: Option<string>): (p: nat)
    ensures p <= |items|
  {
    if after.None? then 0
    else
      match One(items, IdIs(after.value))
      case OneRow(k) => k + 1
      case _ => 0
  }

  /** Stripe's side of the contract: the selected items behind the cursor, as many as it likes to
      put on a page that starts there, and whether there are more. */
  function Fetch(all: seq<BT>, pageSize: nat -> nat, q: Query): (p: Page) {
    var items := Selected(all, q);
    var from := Start(items, q.after);
    var to := if from + pageSize(from) < |items| then from + pageSize(from) else |items|;
    Page(items[from..to], to < |items|)
  }

  ghost predicate UniqueIds(items: seq<BT>) {
    forall i, j :: 0 <= i < j < |items| ==> items[i].id != items[j].id
  }

  lemma {:induction false} FilterKeepsIdsUnique(items: seq<BT>, p: BT -> bool)
    requires UniqueIds(items)
    ensures UniqueIds(Filter(items, p))
  {
    if items != [] {
      var n := |items| - 1;
      FilterKeepsIdsUnique(items[..n], p);
      FilterMembers(items[..n], p);
      var kept := Filter(items[..n], p);
      forall k | 0 <= k < |kept| ensures kept[k].id != items[n].id {
        assert kept[k] in items[..n];
      }
    }
  }

  lemma StartBehind(items: seq<BT>, k: nat)
    requires UniqueIds(items) && k < |items|
    ensures Start(items, Some(items[k].id)) == k + 1
  {
    assert IdIs(items[k].id)(items[k]);
    assert forall i, j :: 0 <= i < j < |items| ==> !(IdIs(items[k].id)(items[i]) && IdIs(items[k].id)(items[j]));
  }

  /** A page behind the first `seen` items continues them; if there is more, the cursor taken from
      its last item stands behind what has been seen by then. */
  lemma PageContinues(all: seq<BT>, pageSize: nat -> nat, q: Query, seen: nat)
    requires UniqueIds(all) && forall p :: pageSize(p) >= 1
    requires Start(Selected(all, q), q.after) == seen
    ensures var items, page := Selected(all, q), Fetch(all, pageSize, q);
            var now := seen + |page.data|;
            && now <= |items| && items[..seen] + page.data == items[..now]
            && (page.hasMore <==> now < |items|)
            && (page.hasMore ==> page.data != [] && Start(items, Some(page.data[|page.data| - 1].id)) == now)
  {
    var items, page := Selected(all, q), Fetch(all, pageSize, q);
    FilterKeepsIdsUnique(all, Selects(q.gte, q.lt, q.kind));
    var now := seen + |page.data|;
    if page.hasMore {
      assert pageSize(seen) >= 1;
      assert page.data[|page.data| - 1] == items[now - 1];
      StartBehind(items, now - 1);
    }
  }

  /** Following the cursor to the end collects every selected item once, in order. The number of
      items not yet seen goes down with every page, because a page with a successor is not empty. */
  method WalkCursor(all: seq<BT>, pageSize: nat -> nat, gte: int, lt: int, kind: Option<string>)
    returns (collected: seq<BT>)
    requires UniqueIds(all) && forall p :: pageSize(p) >= 1
    ensures collected == Filter(all, Selects(gte, lt, kind))
  {
    var q := Query(gte, lt, kind, None);
    ghost var items := Selected(all, q);
    collected := [];
    while true
      invariant q == Query(gte, lt, kind, q.after)
      invariant |collected| <= |items| && Start(items, q.after) == |collected| && collected == items[..|collected|]
      decreases |items| - |collected|
    {
      var page := Fetch(all, pageSize, q);
      PageContinues(all, pageSize, q, |collected|);
      collected := collected + page.data;
      if !page.hasMore {
        break;
      }
      q := q.(after := Some(page.data[|page.data| - 1].id));
    }
    assert items[..|items|] == items;
  }

  /** The whole listing: everything in the window, or the items of each type, type after type. */
  function Listing(all: seq<BT>, gte: int, lt: int, types: seq<string>): seq<BT> {
    if types == [] then Filter(all, Selects(gte, lt, None)) else ListingOf(all, gte, lt, types)
  }

  function ListingOf(all: seq<BT>, gte: int, lt: int, types: seq<string>): seq<BT> {
    if types == [] then []
    else ListingOf(all, gte, lt, types[..|types| - 1]) + Filter(all, Selects(gte, lt, Some(types[|types| - 1])))
  }

  /** `list_balance_transactions`. */
  method ListBalanceTransactions(all: seq<BT>, pageSize: nat -> nat, gte: int, lt: int, types: seq<string>)
    returns (collected: seq<BT>)
    requires UniqueIds(all) && forall p :: pageSize(p) >= 1
    ensures collected == Listing(all, gte, lt, types)
  {
    if types == [] {
      collected := WalkCursor(all, pageSize, gte, lt, None);
      return;
    }
    collected := [];
    for n := 0 to |types|
      invariant collected == ListingOf(all, gte, lt, types[..n])
    {
      var items := WalkCursor(all, pageSize, gte, lt, Some(types[n]));
      collected := collected + items;
      assert types[..n + 1][..n] == types[..n];
    }
    assert types[..|types|] == types;
  }

  lemma {:induction false} ListingMembers(all: seq<BT>, gte: int, lt: int, types: seq<string>)
    ensures forall bt :: bt in ListingOf(all, gte, lt, types) <==>
            bt in all && gte <= bt.created < lt && bt.kind in types
  {
    if types != [] {
      var n := |types| - 1;
      ListingMembers(all, gte, lt, types[..n]);
      FilterMembers(all, Selects(gte, lt, Some(types[n])));
      assert types == types[..n] + [types[n]];
    }
  }

  lemma OneType(all: seq<BT>, gte: int, lt: int)
    ensures forall kind :: ListingOf(all, gte, lt, [kind]) == Filter(all, Selects(gte, lt, Some(kind)))
  {
    forall kind ensures ListingOf(all, gte, lt, [kind]) == Filter(all, Selects(gte, lt, Some(kind))) {
      assert [kind][..0] == [];
    }
  }

  lemma ListingSnoc(all: seq<BT>, gte: int, lt: int, types: seq<string>, kind: string)
    ensures ListingOf(all, gte, lt, types + [kind]) ==
            ListingOf(all, gte, lt, types) + Filter(all, Selects(gte, lt, Some(kind)))
  {
    assert (types + [kind])[..|types|] == types;
  }

  lemma {:induction false} ListingAppend(all: seq<BT>, gte: int, lt: int, types: seq<string>, more: seq<string>)
    ensures ListingOf(all, gte, lt, types + more) == ListingOf(all, gte, lt, types) + ListingOf(all, gte, lt, more)
  {
    if more == [] {
      assert types + more == types;
    } else {
      var fewer, kind := more[..|more| - 1], more[|more| - 1];
      assert more == fewer + [kind] && types + more == (types + fewer) + [kind];
      ListingAppend(all, gte, lt, types, fewer);
      ListingSnoc(all, gte, lt, fewer, kind);
      ListingSnoc(all, gte, lt, types + fewer, kind);
    }
  }

  /** The listing of several types is the listings of the types one after another, each the window's items
      of that type in order; of no types it is the whole window. */
  lemma ListingByType(all: seq<BT>, gte: int, lt: int, types: seq<string>, more: seq<string>)
    ensures ListingOf(all, gte, lt, types + more) == ListingOf(all, gte, lt, types) + ListingOf(all, gte, lt, more)
    ensures forall kind :: ListingOf(all, gte, lt, [kind]) == Filter(all, Selects(gte, lt, Some(kind)))
    ensures Listing(all, gte, lt, []) == Filter(all, Selects(gte, lt, None))
    ensures forall bt :: bt in Listing(all, gte, lt, []) <==> bt in all && gte <= bt.created < lt
  {
    FilterMembers(all, Selects(gte, lt, None));
    ListingAppend(all, gte, lt, types, more);
    OneType(all, gte, lt);
  }

  /** With distinct types the listing holds each balance transaction of the window and of one of
      the types exactly once, whatever the page sizes were. */
  lemma {:induction false} ListingHasEachOnce(all: seq<BT>, gte: int, lt: int, types: seq<string>)
    requires UniqueIds(all) && Distinct(types)
    ensures UniqueIds(ListingOf(all, gte, lt, types))
    ensures forall bt :: bt in ListingOf(all, gte, lt, types) <==>
            bt in all && gte <= bt.created < lt && bt.kind in types
  {
    ListingMembers(all, gte, lt, types);
    if types != [] {
      var n := |types| - 1;
      var earlier, last := ListingOf(all, gte, lt, types[..n]), Filter(all, Selects(gte, lt, Some(types[n])));
      ListingHasEachOnce(all, gte, lt, types[..n]);
      FilterKeepsIdsUnique(all, Selects(gte, lt, Some(types[n])));
      FilterMembers(all, Selects(gte, lt, Some(types[n])));
      forall i, j | 0 <= i < |earlier| && 0 <= j < |last| ensures earlier[i].id != last[j].id {
        assert earlier[i] in earlier && last[j] in last;
        if earlier[i].id == last[j].id { SameIdSameItem(all, earlier[i], last[j]); }
      }
    }
  }

  lemma SameIdSameItem(all: seq<BT>, a: BT, b: BT)
    requires UniqueIds(all) && a in all && b in all && a.id == b.id
    ensures a == b
  {
    var i :| 0 <= i < |all| && all[i] == a;
    var j :| 0 <= j < |all| && all[j] == b;
    assert i == j;
  }
}
