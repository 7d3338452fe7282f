/** Python's order on strings, `sorted` on a set of strings, and `sum(d.values())`. */
module Ordering {
  import opened Common

  /** Code-point order, the order of Python strings. */
  predicate Leq(a: string, b: string) {
    a == "" || (b != "" && (a[0] < b[0] || (a[0] == b[0] && Leq(a[1..], b[1..]))))
  }

  predicate Less(a: string, b: string) {
    Leq(a, b) && a != b
  }

  /** The texts agree up to k, and there the first ends or has the smaller character. */
  ghost predicate BeforeAt(a: string, b: string, k: nat) {
    k <= |a| && k < |b| && a[..k] == b[..k] && (k == |a| || a[k] < b[k])
  }

  /** A text is before another exactly if that is so somewhere. */
  lemma {:induction false} LessMeans(a: string, b: string)
    ensures Less(a, b) <==> exists k: nat :: BeforeAt(a, b, k)
    decreases |a|
  {
    if a == "" {
      assert b != "" ==> BeforeAt(a, b, 0);
    } else if b != "" && a[0] == b[0] {
      LessMeans(a[1..], b[1..]);
      assert a == [a[0]] + a[1..] && b == [b[0]] + b[1..];
      if k: nat :| BeforeAt(a[1..], b[1..], k) {
        assert a[..k + 1] == [a[0]] + a[1..][..k] && b[..k + 1] == [b[0]] + b[1..][..k];
        assert BeforeAt(a, b, k + 1);
      }
      if k: nat :| BeforeAt(a, b, k) {
        assert k > 0 && a[1..][..k - 1] == a[..k][1..] && b[1..][..k - 1] == b[..k][1..];
        assert BeforeAt(a[1..], b[1..], k - 1);
      }
    } else if b != "" {
      forall k: nat | BeforeAt(a, b, k) ensures k > 0 ==> a[0] == b[0] {
        if k > 0 { SameStart(a, b, k); }
      }
      assert a[0] < b[0] ==> BeforeAt(a, b, 0);
    }
  }

  lemma SameStart(a: string, b: string, k: nat)
    requires 0 < k <= |a| && k <= |b| && a[..k] == b[..k]
    ensures a[0] == b[0]
  {
    assert a[..k][0] == a[0] && b[..k][0] == b[0];
  }

  lemma LeqTotal(a: string, b: string)
    ensures Leq(a, b) || Leq(b, a)
    ensures Leq(a, b) && Leq(b, a) ==> a == b
  {
    if a != "" && b != "" && a[0] == b[0] {
      LeqTotal(a[1..], b[1..]);
      assert a == [a[0]] + a[1..] && b == [b[0]] + b[1..];
    }
  }

  lemma LeqTransitive(a: string, b: string, c: string)
    requires Leq(a, b) && Leq(b, c)
    ensures Leq(a, c)
  {
    if a != "" && a[0] == b[0] && b[0] == c[0] {
      LeqTransitive(a[1..], b[1..], c[1..]);
    }
  }

  predicate Least(m: string, s: set<string>) {
    m in s && forall x :: x in s ==> Leq(m, x)
  }

  lemma {:induction false} LeastExists(s: set<string>)
    requires s != {}
    ensures exists m :: Least(m, s)
    decreases |s|
  {
    var x :| x in s;
    var rest := s - {x};
    if rest == {} {
      assert s == {x};
      LeqTotal(x, x);
      assert Least(x, s);
    } else {
      LeastExists(rest);
      var m :| Least(m, rest);
      LeqTotal(x, m);
      LeqTotal(x, x);
      var least := if Leq(x, m) then x else m;
      forall y | y in s ensures Leq(least, y) {
        if y != x && Leq(x, m) { LeqTransitive(x, m, y); }
      }
      assert Least(least, s);
    }
  }

  predicate Ascending(xs: seq<string>) {
    forall i, j :: 0 <= i < j < |xs| ==> Less(xs[i], xs[j])
  }

  lemma LeastIsUnique(m: string, n: string, s: set<string>)
    requires Least(m, s) && Least(n, s)
    ensures m == n
  {
    LeqTotal(m, n);
  }

  /** `sorted(s)`: the elements of the set, each once, strictly ascending. */
  function Sorted(s: set<string>): (r: seq<string>)
    ensures Ascending(r) && Distinct(r)
    ensures forall x :: x in r <==> x in s
    decreases |s|
  {
    if s == {} then []
    else
      LeastExists(s);
      assert forall m, n :: Least(m, s) && Least(n, s) ==> m == n by {
        forall m, n | Least(m, s) && Least(n, s) ensures m == n { LeastIsUnique(m, n, s); }
      }
      var m :| m in s && Least(m, s);
      var rest := Sorted(s - {m});
      assert forall j :: 0 <= j < |rest| ==> rest[j] in s - {m};
      assert forall j :: 0 <= j < |rest| ==> Less(m, rest[j]);
      [m] + rest
  }

  function ValueAt(m: map<string, int>): string -> int {
    k => if k in m then m[k] else 0
  }

  /** `sum(m.values())`. */
  function SumValues(m: map<string, int>): int {
    Sum(Sorted(m.Keys), ValueAt(m))
  }

  /** The sum may be taken over any duplicate-free list that covers the keys. */
  lemma SumValuesOver(m: map<string, int>, ids: seq<string>)
    requires Distinct(ids) && forall k :: k in m ==> k in ids
    ensures SumValues(m) == Sum(ids, ValueAt(m))
  {
    SumSubset(Sorted(m.Keys), ids, ValueAt(m));
  }

  /** The values of a group-by add up to the sum of everything that has a group. */
  lemma SumOfGroups<T>(xs: seq<T>, key: T -> Option<string>, w: T -> int)
    ensures SumValues(GroupMap(xs, key, w)) == Sum(xs, Keyed(key, w))
  {
    var m := GroupMap(xs, key, w);
    var ids := Sorted(m.Keys);
    forall x | x in xs && key(x).Some? ensures key(x).value in ids {
      var i :| 0 <= i < |xs| && xs[i] == x;
      assert key(xs[i]).value in KeySet(xs, key);
    }
    GroupTotal(xs, key, w, ids);
    SumSame(ids, ValueAt(m), GroupSum(xs, key, w));
  }
}
