/** Definitions shared by every part of the model: optional values, ASCII lower-casing,
    the single-row query, and sums over sequences weighted by a function. */
module Common {

  datatype Option<+T> = None | Some(value: T)

  datatype Result<+T, +E> = Ok(value: T) | Err(error: E)

  // ---------------------------------------------------------------- strings

  function LowerChar(c: char): char {
    if 'A' <= c <= 'Z' then ((c as int) + 32) as char else c
  }

  /** `str.lower()` on ASCII text. */
  function Lower(s: string): (r: string)
    ensures |r| == |s|
  {
    seq(|s|, i requires 0 <= i < |s| => LowerChar(s[i]))
  }

  lemma LowerIdempotent(s: string)
    ensures Lower(Lower(s)) == Lower(s)
  {
    forall i | 0 <= i < |s| ensures Lower(Lower(s))[i] == Lower(s)[i] {
      assert Lower(s)[i] == LowerChar(s[i]);
    }
  }

  /** Lower-casing takes each capital to its small letter and leaves every other character. */
  lemma LowerMeans(s: string, i: nat)
    requires i < |s|
    ensures var capitals, small := "ABCDEFGHIJKLMNOPQRSTUVWXYZ", "abcdefghijklmnopqrstuvwxyz";
            && (s[i] !in capitals ==> Lower(s)[i] == s[i])
            && (forall k :: 0 <= k < 26 && s[i] == capitals[k] ==> Lower(s)[i] == small[k])
  {
    var capitals, small := "ABCDEFGHIJKLMNOPQRSTUVWXYZ", "abcdefghijklmnopqrstuvwxyz";
    assert forall k :: 0 <= k < 26 ==> capitals[k] as int == 65 + k && small[k] as int == 97 + k;
    if 'A' <= s[i] <= 'Z' {
      assert capitals[s[i] as int - 65] == s[i];
    }
  }

  // ------------------------------------------------------- single-row query

  /** What `scalar_one_or_none` finds: nothing, exactly one row, or several (it raises). */
  datatype Found = NoRow | OneRow(row: nat) | ManyRows

  /** A SELECT with a WHERE clause, read through `scalar_one_or_none`. */
  function One<T>(rows: seq<T>, where_: T -> bool): (f: Found)
    ensures f.NoRow? <==> forall i :: 0 <= i < |rows| ==> !where_(rows[i])
    ensures f.OneRow? ==> f.row < |rows| && where_(rows[f.row])
    ensures f.OneRow? ==> forall i :: 0 <= i < |rows| && where_(rows[i]) ==> i == f.row
    ensures f.ManyRows? ==> exists i, j :: 0 <= i < j < |rows| && where_(rows[i]) && where_(rows[j])
  {
    if rows == [] then NoRow
    else
      var n := |rows| - 1;
      var f := One(rows[..n], where_);
      assert forall i :: 0 <= i < n ==> rows[..n][i] == rows[i];
      if !where_(rows[n]) then f else if f.NoRow? then OneRow(n) else
        assert exists i :: 0 <= i < n && where_(rows[i]);
        ManyRows
  }

  // ------------------------------------------------------------------- sums

  /** The sum of a weight over a sequence; every ledger position, count and total is one. */
  function Sum<T>(xs: seq<T>, w: T -> int): int {
    if xs == [] then 0 else Sum(xs[..|xs| - 1], w) + w(xs[|xs| - 1])
  }

  lemma SumSnoc<T>(xs: seq<T>, x: T, w: T -> int)
    ensures Sum(xs + [x], w) == Sum(xs, w) + w(x)
  {
    assert (xs + [x])[..|xs|] == xs;
  }

  lemma {:induction false} SumAppend<T>(xs: seq<T>, ys: seq<T>, w: T -> int)
    ensures Sum(xs + ys, w) == Sum(xs, w) + Sum(ys, w)
  {
    if ys == [] {
      assert xs + ys == xs;
    } else {
      var n := |ys| - 1;
      assert (xs + ys)[..|xs| + n] == xs + ys[..n];
      SumAppend(xs, ys[..n], w);
    }
  }

  lemma {:induction false} SumSame<T>(xs: seq<T>, v: T -> int, w: T -> int)
    requires forall x :: x in xs ==> v(x) == w(x)
    ensures Sum(xs, v) == Sum(xs, w)
  {
    if xs != [] {
      SumSame(xs[..|xs| - 1], v, w);
    }
  }

  lemma {:induction false} SumZero<T>(xs: seq<T>, w: T -> int)
    requires forall x :: x in xs ==> w(x) == 0
    ensures Sum(xs, w) == 0
  {
    if xs != [] {
      SumZero(xs[..|xs| - 1], w);
    }
  }

  lemma {:induction false} SumLinear<T>(xs: seq<T>, u: T -> int, v: T -> int, w: T -> int)
    requires forall x :: x in xs ==> w(x) == u(x) + v(x)
    ensures Sum(xs, w) == Sum(xs, u) + Sum(xs, v)
  {
    if xs != [] {
      SumLinear(xs[..|xs| - 1], u, v, w);
    }
  }

  /** Taking one element out of the middle takes its weight out of the sum. */
  lemma {:induction false} SumRemove<T>(xs: seq<T>, i: nat, w: T -> int)
    requires i < |xs|
    ensures Sum(xs, w) == Sum(xs[..i] + xs[i + 1..], w) + w(xs[i])
  {
    var left, x, right := xs[..i], xs[i], xs[i + 1..];
    assert xs == (left + [x]) + right;
    SumAppend(left + [x], right, w);
    SumSnoc(left, x, w);
    SumAppend(left, right, w);
  }

  /** A sum does not depend on the order of its terms. */
  lemma {:induction false} SumPermuted<T>(xs: seq<T>, ys: seq<T>, w: T -> int)
    requires multiset(xs) == multiset(ys)
    ensures Sum(xs, w) == Sum(ys, w)
  {
    if xs == [] {
      assert |multiset(ys)| == 0;
    } else {
      var n := |xs| - 1;
      var x := xs[n];
      assert x in multiset(xs);
      var i :| 0 <= i < |ys| && ys[i] == x;
      assert xs == xs[..n] + [x];
      assert ys == ys[..i] + [x] + ys[i + 1..];
      assert multiset(xs) == multiset(xs[..n]) + multiset{x};
      assert multiset(ys) == multiset(ys[..i]) + multiset{x} + multiset(ys[i + 1..]);
      assert multiset(ys[..i] + ys[i + 1..]) == multiset(ys[..i]) + multiset(ys[i + 1..]);
      assert multiset(xs[..n]) == multiset(xs) - multiset{x};
      SumPermuted(xs[..n], ys[..i] + ys[i + 1..], w);
      SumRemove(ys, i, w);
    }
  }

  ghost predicate Distinct<T>(xs: seq<T>) {
    forall i, j :: 0 <= i < j < |xs| ==> xs[i] != xs[j]
  }

  /** Two duplicate-free lists give the same sum when the longer one adds only zero terms. */
  lemma {:induction false} SumSubset<T>(xs: seq<T>, ys: seq<T>, w: T -> int)
    requires Distinct(xs) && Distinct(ys)
    requires forall x :: x in xs ==> x in ys
    requires forall y :: y in ys && y !in xs ==> w(y) == 0
    ensures Sum(xs, w) == Sum(ys, w)
  {
    if ys == [] {
      SumZero(xs, w);
    } else {
      var n := |ys| - 1;
      var y := ys[n];
      if y in xs {
        var i :| 0 <= i < |xs| && xs[i] == y;
        var rest := xs[..i] + xs[i + 1..];
        assert forall x :: x in rest ==> x in xs && x != y;
        assert forall x :: x in xs && x != y ==> x in rest;
        SumSubset(rest, ys[..n], w);
        SumRemove(xs, i, w);
      } else {
        SumSubset(xs, ys[..n], w);
      }
    }
  }

  /** The positions of a table with n rows. */
  function Indices(n: nat): (ids: seq<nat>)
    ensures |ids| == n && forall i :: 0 <= i < n ==> ids[i] == i
  {
    seq(n, i requires 0 <= i < n => i)
  }

  // ----------------------------------------------------------------- filters

  function Filter<T>(xs: seq<T>, p: T -> bool): seq<T> {
    if xs == [] then []
    else
      var n := |xs| - 1;
      Filter(xs[..n], p) + if p(xs[n]) then [xs[n]] else []
  }

  lemma {:induction false} FilterAppend<T>(xs: seq<T>, ys: seq<T>, p: T -> bool)
    ensures Filter(xs + ys, p) == Filter(xs, p) + Filter(ys, p)
  {
    if ys == [] {
      assert xs + ys == xs;
    } else {
      var n := |ys| - 1;
      assert (xs + ys)[..|xs| + n] == xs + ys[..n];
      FilterAppend(xs, ys[..n], p);
    }
  }

  lemma {:induction false} FilterSame<T>(xs: seq<T>, p: T -> bool, q: T -> bool)
    requires forall x :: x in xs ==> p(x) == q(x)
    ensures Filter(xs, p) == Filter(xs, q)
  {
    if xs != [] {
      FilterSame(xs[..|xs| - 1], p, q);
    }
  }

  lemma FilterSnoc<T>(xs: seq<T>, x: T, p: T -> bool)
    ensures Filter(xs + [x], p) == if p(x) then Filter(xs, p) + [x] else Filter(xs, p)
  {
    assert (xs + [x])[..|xs|] == xs;
  }

  lemma {:induction false} FilterMembers<T>(xs: seq<T>, p: T -> bool)
    ensures forall x :: x in Filter(xs, p) <==> x in xs && p(x)
  {
    if xs != [] {
      var n := |xs| - 1;
      FilterMembers(xs[..n], p);
      assert xs == xs[..n] + [xs[n]];
    }
  }

  /** Summing what a filter keeps is summing everything with the rest weighted zero. */
  lemma {:induction false} FilterSum<T>(xs: seq<T>, p: T -> bool, v: T -> int, w: T -> int)
    requires forall x :: x in xs ==> w(x) == if p(x) then v(x) else 0
    ensures Sum(Filter(xs, p), v) == Sum(xs, w)
  {
    if xs != [] {
      var n := |xs| - 1;
      FilterSum(xs[..n], p, v, w);
      if p(xs[n]) {
        SumSnoc(Filter(xs[..n], p), xs[n], v);
      } else {
        assert Filter(xs, p) == Filter(xs[..n], p);
      }
    }
  }

  // -------------------------------------------------------------- group sums

  function Restrict<T, K(==)>(key: T -> Option<K>, w: T -> int, k: K): T -> int {
    x => if key(x) == Some(k) then w(x) else 0
  }

  function Keyed<T, K(==)>(key: T -> Option<K>, w: T -> int): T -> int {
    x => if key(x).Some? then w(x) else 0
  }

  function GroupSum<T, K(==)>(xs: seq<T>, key: T -> Option<K>, w: T -> int): K -> int {
    k => Sum(xs, Restrict(key, w, k))
  }

  function PointMass<K(==)>(k: K, v: int): K -> int {
    x => if x == k then v else 0
  }

  lemma {:induction false} SumPointMass<K>(ids: seq<K>, k: K, v: int)
    requires Distinct(ids)
    ensures Sum(ids, PointMass(k, v)) == if k in ids then v else 0
  {
    if ids != [] {
      var n := |ids| - 1;
      SumPointMass(ids[..n], k, v);
      assert ids == ids[..n] + [ids[n]];
    }
  }

  /** Grouping loses nothing: the group sums add up to the sum of everything that has a group. */
  lemma {:induction false} GroupTotal<T, K>(xs: seq<T>, key: T -> Option<K>, w: T -> int, ids: seq<K>)
    requires Distinct(ids)
    requires forall x :: x in xs && key(x).Some? ==> key(x).value in ids
    ensures Sum(ids, GroupSum(xs, key, w)) == Sum(xs, Keyed(key, w))
  {
    if xs == [] {
      SumZero(ids, GroupSum(xs, key, w));
    } else {
      var n := |xs| - 1;
      GroupTotal(xs[..n], key, w, ids);
      if key(xs[n]).Some? {
        var mass := PointMass(key(xs[n]).value, w(xs[n]));
        SumPointMass(ids, key(xs[n]).value, w(xs[n]));
        SumLinear(ids, GroupSum(xs[..n], key, w), mass, GroupSum(xs, key, w));
      } else {
        SumSame(ids, GroupSum(xs[..n], key, w), GroupSum(xs, key, w));
      }
    }
  }

  function KeySet<T, K(==)>(xs: seq<T>, key: T -> Option<K>): set<K> {
    set i | 0 <= i < |xs| && key(xs[i]).Some? :: key(xs[i]).value
  }

  /** The group-by of a list: one entry per key that occurs, holding the sum of its weights. */
  function GroupMap<T, K(==)>(xs: seq<T>, key: T -> Option<K>, w: T -> int): map<K, int> {
    map k | k in KeySet(xs, key) :: Sum(xs, Restrict(key, w, k))
  }

  function AddToGroup<K(==)>(m: map<K, int>, key: Option<K>, v: int): map<K, int> {
    if key.None? then m else m[key.value := (if key.value in m then m[key.value] else 0) + v]
  }

  /** Adding one item changes one entry of the group-by. */
  lemma GroupMapSnoc<T, K>(xs: seq<T>, x: T, key: T -> Option<K>, w: T -> int)
    ensures GroupMap(xs + [x], key, w) == AddToGroup(GroupMap(xs, key, w), key(x), w(x))
  {
    var ys := xs + [x];
    assert forall i :: 0 <= i < |xs| ==> ys[i] == xs[i];
    assert ys[|xs|] == x;
    forall k ensures k in KeySet(ys, key) <==> k in KeySet(xs, key) || key(x) == Some(k) {
      if k in KeySet(xs, key) {
        var i :| 0 <= i < |xs| && key(xs[i]).Some? && key(xs[i]).value == k;
        assert key(ys[i]).value == k;
      }
      if key(x) == Some(k) {
        assert key(ys[|xs|]).value == k;
      }
    }
    forall k ensures Sum(ys, Restrict(key, w, k)) == Sum(xs, Restrict(key, w, k)) + Restrict(key, w, k)(x) {
      SumSnoc(xs, x, Restrict(key, w, k));
    }
    if key(x).Some? && key(x).value !in KeySet(xs, key) {
      forall y | y in xs ensures Restrict(key, w, key(x).value)(y) == 0 {
        var i :| 0 <= i < |xs| && xs[i] == y;
        if key(y).Some? { assert key(xs[i]).value in KeySet(xs, key); }
      }
      SumZero(xs, Restrict(key, w, key(x).value));
    }
  }

  /** The group-by as a loop builds it, one item at a time. */
  function GroupFold<T, K(==)>(xs: seq<T>, key: T -> Option<K>, w: T -> int): map<K, int> {
    if xs == [] then map[]
    else
      var n := |xs| - 1;
      AddToGroup(GroupFold(xs[..n], key, w), key(xs[n]), w(xs[n]))
  }

  lemma {:induction false} GroupFoldIsGroupMap<T, K>(xs: seq<T>, key: T -> Option<K>, w: T -> int)
    ensures GroupFold(xs, key, w) == GroupMap(xs, key, w)
  {
    if xs != [] {
      var n := |xs| - 1;
      GroupFoldIsGroupMap(xs[..n], key, w);
      GroupMapSnoc(xs[..n], xs[n], key, w);
      assert xs[..n] + [xs[n]] == xs;
    }
  }
}
