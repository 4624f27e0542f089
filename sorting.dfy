/** The library sort the source calls, `array.sort((a, b) => key(b) - key(a))`:
    a stable sort that puts larger keys first. Modelled as a stable insertion
    sort on values; the copy `[...xs]` the source sorts makes the in-place
    update invisible to callers, so only the resulting order matters. */
module Sorting {
  import opened Support

  /** Keys never increase along s. */
  ghost predicate NonIncreasing<T>(s: seq<T>, key: T -> real)
  {
    forall i, j :: 0 <= i < j < |s| ==> key(s[i]) >= key(s[j])
  }

  /** Inserts x in front of every element whose key is not larger, so an
      element inserted later (that came earlier in the input) stays ahead of
      equal keys: this is what makes the sort stable. */
  function InsertDesc<T>(x: T, ys: seq<T>, key: T -> real): (r: seq<T>)
    requires NonIncreasing(ys, key)
    ensures |r| == |ys| + 1
    ensures multiset(r) == multiset(ys) + multiset{x}
    ensures r[0] == x || (ys != [] && r[0] == ys[0])
    ensures NonIncreasing(r, key)
  {
    if ys == [] || key(x) >= key(ys[0]) then
      ConsNonIncreasing(x, ys, key);
      [x] + ys
    else
      var rest := InsertDesc(x, ys[1..], key);
      InsertBehind(x, ys, key, rest);
      [ys[0]] + rest
  }

  /** The recursive case of InsertDesc: x inserted into the tail, behind
      the head, whose key is larger. */
  lemma InsertBehind<T>(x: T, ys: seq<T>, key: T -> real, rest: seq<T>)
    requires ys != [] && key(x) < key(ys[0]) && NonIncreasing(ys, key)
    requires multiset(rest) == multiset(ys[1..]) + multiset{x}
    requires rest != [] && (rest[0] == x || (ys[1..] != [] && rest[0] == ys[1..][0]))
    requires NonIncreasing(rest, key)
    ensures multiset([ys[0]] + rest) == multiset(ys) + multiset{x}
    ensures NonIncreasing([ys[0]] + rest, key)
  {
    assert ys == [ys[0]] + ys[1..];
    assert key(ys[0]) >= key(rest[0]) by {
      if rest[0] != x {
        assert rest[0] == ys[1];
      }
    }
    ConsNonIncreasing(ys[0], rest, key);
  }

  /** An element with a key no smaller than the head's can go in front. */
  lemma ConsNonIncreasing<T>(y: T, rest: seq<T>, key: T -> real)
    requires NonIncreasing(rest, key)
    requires rest != [] ==> key(y) >= key(rest[0])
    ensures NonIncreasing([y] + rest, key)
  {
    var r := [y] + rest;
    forall i, j | 0 <= i < j < |r| ensures key(r[i]) >= key(r[j]) {
      if i == 0 && j > 1 {
        assert r[j] == rest[j - 1];
        assert key(rest[0]) >= key(rest[j - 1]);
      }
    }
  }

  /** The stable descending sort by key. */
  function SortDesc<T>(xs: seq<T>, key: T -> real): (r: seq<T>)
    ensures |r| == |xs|
    ensures multiset(r) == multiset(xs)
    ensures NonIncreasing(r, key)
  {
    if xs == [] then []
    else
      assert xs == [xs[0]] + xs[1..];
      InsertDesc(xs[0], SortDesc(xs[1..], key), key)
  }

  /** The elements whose key is k, in order. */
  function WithKey<T>(s: seq<T>, key: T -> real, k: real): seq<T>
  {
    if s == [] then []
    else (if key(s[0]) == k then [s[0]] else []) + WithKey(s[1..], key, k)
  }

  lemma WithKeyCons<T>(y: T, s: seq<T>, key: T -> real, k: real)
    ensures WithKey([y] + s, key, k) == (if key(y) == k then [y] else []) + WithKey(s, key, k)
  {
    assert ([y] + s)[0] == y && ([y] + s)[1..] == s;
  }

  /** Inserting x puts it ahead of every element with its key: among the
      elements of any one key, x comes first and the others keep their
      order. */
  lemma {:induction false} InsertStable<T>(x: T, ys: seq<T>, key: T -> real, k: real)
    requires NonIncreasing(ys, key)
    ensures WithKey(InsertDesc(x, ys, key), key, k)
         == (if key(x) == k then [x] else []) + WithKey(ys, key, k)
  {
    if ys == [] || key(x) >= key(ys[0]) {
      WithKeyCons(x, ys, key, k);
    } else {
      var rest := InsertDesc(x, ys[1..], key);
      InsertStable(x, ys[1..], key, k);
      assert InsertDesc(x, ys, key) == [ys[0]] + rest;
      PassedOver(x, ys[0], ys[1..], rest, key, k);
      assert ys == [ys[0]] + ys[1..];
    }
  }

  /** The recursive case: x goes behind y, whose key is larger, so y and x
      never share a key. */
  lemma PassedOver<T>(x: T, y: T, ys: seq<T>, rest: seq<T>, key: T -> real, k: real)
    requires key(x) < key(y)
    requires WithKey(rest, key, k) == (if key(x) == k then [x] else []) + WithKey(ys, key, k)
    ensures WithKey([y] + rest, key, k) == (if key(x) == k then [x] else []) + WithKey([y] + ys, key, k)
  {
    var own := if key(x) == k then [x] else [];
    var head := if key(y) == k then [y] else [];
    var tail := WithKey(ys, key, k);
    WithKeyCons(y, rest, key, k);
    WithKeyCons(y, ys, key, k);
    assert head == [] || own == [];
    assert head + (own + tail) == own + (head + tail);
  }

  /** The sort is stable: the elements of any one key come out in the
      order they went in. */
  lemma {:induction false} SortStable<T>(xs: seq<T>, key: T -> real, k: real)
    ensures WithKey(SortDesc(xs, key), key, k) == WithKey(xs, key, k)
  {
    if xs != [] {
      SortStable(xs[1..], key, k);
      InsertStable(xs[0], SortDesc(xs[1..], key), key, k);
    }
  }

  /** The numeric ascending sort `array.sort((a, b) => a - b)` on integers. */
  function SortAsc(xs: seq<int>): (r: seq<int>)
    ensures |r| == |xs|
    ensures multiset(r) == multiset(xs)
    ensures forall i, j :: 0 <= i < j < |r| ==> r[i] <= r[j]
  {
    var r := SortDesc(xs, (x: int) => -(x as real));
    assert forall i, j :: 0 <= i < j < |r| ==> -(r[i] as real) >= -(r[j] as real);
    r
  }

  /** The first k elements of a descending sort are the k largest keys: none
      left behind has a larger key than one taken, and what is taken comes
      from the input. */
  lemma TopKeys<T>(xs: seq<T>, key: T -> real, k: nat)
    requires k <= |xs|
    ensures var s := SortDesc(xs, key);
      && multiset(s[..k]) <= multiset(xs)
      && forall i, j :: 0 <= i < k <= j < |s| ==> key(s[i]) >= key(s[j])
  {
    var s := SortDesc(xs, key);
    assert s == s[..k] + s[k..];
    assert multiset(s) == multiset(s[..k]) + multiset(s[k..]);
  }

  /** What a descending sort followed by `slice(0, count)` leaves behind
      has no larger key than anything it takes. */
  lemma LeftBehind<T>(xs: seq<T>, key: T -> real, count: nat)
    ensures var r := Take(SortDesc(xs, key), count);
      forall s, t :: s in multiset(xs) - multiset(r) && t in r ==> key(t) >= key(s)
  {
    var sorted := SortDesc(xs, key);
    var r := Take(sorted, count);
    var k := |r|;
    var rest := sorted[k..];
    assert sorted == r + rest;
    assert multiset(sorted) == multiset(r) + multiset(rest);
    PrefixAbove(sorted, key, k);
  }

  /** In a non-increasing sequence no element after position k has a larger
      key than one before it. */
  lemma PrefixAbove<T>(sorted: seq<T>, key: T -> real, k: nat)
    requires k <= |sorted| && NonIncreasing(sorted, key)
    ensures forall s, t :: s in multiset(sorted[k..]) && t in sorted[..k] ==> key(t) >= key(s)
  {
    var r, rest := sorted[..k], sorted[k..];
    forall s, t | s in multiset(rest) && t in r
      ensures key(t) >= key(s)
    {
      assert s in rest;
      var j :| 0 <= j < |rest| && rest[j] == s;
      var i :| 0 <= i < k && r[i] == t;
      assert sorted[i] == t && sorted[k + j] == s;
    }
  }


  /** `sort` then `slice(0, count)`: min(count, n) elements of the input,
      largest key first, none left behind with a larger key. */
  lemma TopCount<T>(xs: seq<T>, key: T -> real, count: nat)
    ensures var r := Take(SortDesc(xs, key), count);
      && |r| == Min(count, |xs|)
      && multiset(r) <= multiset(xs)
      && (forall i, j :: 0 <= i < j < |r| ==> key(r[i]) >= key(r[j]))
      && (forall s, t :: s in multiset(xs) - multiset(r) && t in r ==> key(t) >= key(s))
  {
    var r := Take(SortDesc(xs, key), count);
    TopKeys(xs, key, |r|);
    LeftBehind(xs, key, count);
  }

  /** What `slice(0, count)` takes after a sort is an element of the input. */
  lemma TakenFromInput<T>(xs: seq<T>, key: T -> real, count: nat)
    ensures forall t :: t in Take(SortDesc(xs, key), count) ==> t in xs
  {
    var sorted := SortDesc(xs, key);
    forall t | t in Take(sorted, count) ensures t in xs {
      assert t in multiset(sorted);
    }
  }

  /** An element of the input is either taken by `slice(0, count)` after a
      descending sort, or count elements at least as large were taken. */
  lemma TakenOrOutranked<T>(xs: seq<T>, key: T -> real, count: nat, x: T)
    requires x in xs
    ensures var r := Take(SortDesc(xs, key), count);
      x in r || (|r| == count && forall t :: t in r ==> key(t) >= key(x))
  {
    var r := Take(SortDesc(xs, key), count);
    if x !in r {
      TopCount(xs, key, count);
      assert x in multiset(xs) - multiset(r);
    }
  }

  /** No two elements of s share an f-value. */
  ghost predicate DistinctBy<T, U>(s: seq<T>, f: T -> U)
  {
    forall i, j :: 0 <= i < j < |s| ==> f(s[i]) != f(s[j])
  }

  lemma {:induction false} InsertKeepsDistinct<T, U>(x: T, ys: seq<T>, key: T -> real, f: T -> U)
    requires NonIncreasing(ys, key) && DistinctBy(ys, f)
    requires forall y :: y in ys ==> f(y) != f(x)
    ensures DistinctBy(InsertDesc(x, ys, key), f)
  {
    if ys != [] && key(x) < key(ys[0]) {
      var rest := InsertDesc(x, ys[1..], key);
      InsertKeepsDistinct(x, ys[1..], key, f);
      forall j | 0 <= j < |rest| ensures f(ys[0]) != f(rest[j]) {
        assert rest[j] in multiset(rest);
        if rest[j] != x {
          assert rest[j] in multiset(ys[1..]);
          var t :| 0 <= t < |ys[1..]| && ys[1..][t] == rest[j];
          assert ys[t + 1] == rest[j];
        }
      }
      assert InsertDesc(x, ys, key) == [ys[0]] + rest;
    }
  }

  /** Sorting keeps elements with distinct f-values distinct. */
  lemma {:induction false} SortKeepsDistinct<T, U>(xs: seq<T>, key: T -> real, f: T -> U)
    requires DistinctBy(xs, f)
    ensures DistinctBy(SortDesc(xs, key), f)
  {
    if xs != [] {
      var tail := xs[1..];
      SortKeepsDistinct(tail, key, f);
      var st := SortDesc(tail, key);
      forall y | y in st ensures f(y) != f(xs[0]) {
        assert y in multiset(tail);
        var t :| 0 <= t < |tail| && tail[t] == y;
        assert xs[t + 1] == y;
      }
      InsertKeepsDistinct(xs[0], st, key, f);
    }
  }

  /** A duplicate-free sequence holds each value at most once. */
  lemma {:induction false} DistinctAtMostOnce(xs: seq<int>)
    requires forall i, j :: 0 <= i < j < |xs| ==> xs[i] != xs[j]
    ensures forall v :: multiset(xs)[v] <= 1
  {
    if xs != [] {
      DistinctAtMostOnce(xs[1..]);
      assert xs == [xs[0]] + xs[1..];
      assert xs[0] !in xs[1..];
    }
  }

  /** A sequence holding each value at most once has no repeated element. */
  lemma AtMostOnceDistinct(r: seq<int>, i: int, j: int)
    requires forall v :: multiset(r)[v] <= 1
    requires 0 <= i < j < |r|
    ensures r[i] != r[j]
  {
    assert r == r[..j] + [r[j]] + r[j + 1..];
    assert multiset(r)[r[j]] >= multiset(r[..j])[r[j]] + 1;
    assert r[..j][i] == r[i];
    assert r[i] in multiset(r[..j]);
  }

  /** Sorting a duplicate-free sequence of integers gives a strictly
      ascending one. */
  lemma SortAscStrict(xs: seq<int>)
    requires forall i, j :: 0 <= i < j < |xs| ==> xs[i] != xs[j]
    ensures var r := SortAsc(xs); forall i, j :: 0 <= i < j < |r| ==> r[i] < r[j]
  {
    var r := SortAsc(xs);
    DistinctAtMostOnce(xs);
    forall i, j | 0 <= i < j < |r| ensures r[i] < r[j] {
      AtMostOnceDistinct(r, i, j);
    }
  }
}
