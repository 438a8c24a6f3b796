/**
 The sort the projection views rely on: Python's `sorted`, which is
 stable, over keys made of one or two optional integers compared the
 Python 2 way (`None` before every integer, tuples lexicographically).
 */
module ProjectionSort {
  import opened Wrappers

  datatype SortKey = SortKey(major: Option<int>, minor: Option<int>)

  /** Python 2 `a <= b` on `None` and integers. */
  predicate OptLe(a: Option<int>, b: Option<int>) {
    a.None? || (b.Some? && a.value <= b.value)
  }

  /** Lexicographic `<=` on keys. */
  predicate KeyLe(a: SortKey, b: SortKey) {
    (OptLe(a.major, b.major) && a.major != b.major) || (a.major == b.major && OptLe(a.minor, b.minor))
  }

  lemma KeyLeTotal(a: SortKey, b: SortKey)
    ensures KeyLe(a, b) || KeyLe(b, a)
  {
  }

  lemma KeyLeTrans(a: SortKey, b: SortKey, c: SortKey)
    requires KeyLe(a, b) && KeyLe(b, c)
    ensures KeyLe(a, c)
  {
  }

  ghost predicate Sorted<T>(xs: seq<T>, key: T -> SortKey) {
    forall i, j :: 0 <= i < j < |xs| ==> KeyLe(key(xs[i]), key(xs[j]))
  }

  /** Places `x` before the first element whose key is not smaller, so
      that it precedes the elements with an equal key. */
  function Insert<T>(x: T, ys: seq<T>, key: T -> SortKey): (r: seq<T>)
    ensures |r| == |ys| + 1
    ensures multiset(r) == multiset(ys) + multiset{x}
  {
    if |ys| == 0 || KeyLe(key(x), key(ys[0])) then [x] + ys
    else
      var rest := Insert(x, ys[1..], key);
      assert ys == [ys[0]] + ys[1..];
      [ys[0]] + rest
  }

  /** `sorted(xs, key=key)`: ordered by key, a permutation of `xs`, and
      stable (see `SortStable`). */
  function SortBy<T>(xs: seq<T>, key: T -> SortKey): (r: seq<T>)
    ensures |r| == |xs|
    ensures multiset(r) == multiset(xs)
    ensures Sorted(r, key)
  {
    if |xs| == 0 then []
    else
      var rest := SortBy(xs[1..], key);
      InsertSorted(xs[0], rest, key);
      assert xs == [xs[0]] + xs[1..];
      Insert(xs[0], rest, key)
  }

  lemma {:induction false} InsertSorted<T>(x: T, ys: seq<T>, key: T -> SortKey)
    requires Sorted(ys, key)
    ensures Sorted(Insert(x, ys, key), key)
    decreases |ys|
  {
    var r := Insert(x, ys, key);
    if |ys| == 0 {
    } else if KeyLe(key(x), key(ys[0])) {
      forall i, j | 0 <= i < j < |r|
        ensures KeyLe(key(r[i]), key(r[j]))
      {
        if i == 0 {
          KeyLeTrans(key(x), key(ys[0]), key(ys[j - 1]));
        }
      }
    } else {
      KeyLeTotal(key(x), key(ys[0]));
      var tl := ys[1..];
      InsertSorted(x, tl, key);
      var rest := Insert(x, tl, key);
      forall i, j | 0 <= i < j < |r|
        ensures KeyLe(key(r[i]), key(r[j]))
      {
        if i == 0 {
          var y := r[j];
          assert y == rest[j - 1];
          assert y in multiset(rest);
          if y == x {
          } else {
            assert y in multiset(tl);
            var k :| 0 <= k < |tl| && tl[k] == y;
            assert ys[k + 1] == y;
          }
        } else {
          assert r[i] == rest[i - 1] && r[j] == rest[j - 1];
        }
      }
    }
  }

  /** The elements of `xs` whose key is `k`, in order. */
  function WithKey<T>(xs: seq<T>, key: T -> SortKey, k: SortKey): (r: seq<T>)
    ensures |r| <= |xs|
  {
    if |xs| == 0 then []
    else (if key(xs[0]) == k then [xs[0]] else []) + WithKey(xs[1..], key, k)
  }

  /** `x` lands before every element with its own key, so among the
      elements with key `k` it comes first. */
  lemma {:induction false} InsertWithKey<T>(x: T, ys: seq<T>, key: T -> SortKey, k: SortKey)
    ensures WithKey(Insert(x, ys, key), key, k) ==
              (if key(x) == k then [x] else []) + WithKey(ys, key, k)
    decreases |ys|
  {
    var own := if key(x) == k then [x] else [];
    if |ys| == 0 || KeyLe(key(x), key(ys[0])) {
      assert ([x] + ys)[1..] == ys;
    } else {
      var tl := ys[1..];
      InsertWithKey(x, tl, key, k);
      var rest := Insert(x, tl, key);
      assert Insert(x, ys, key) == [ys[0]] + rest;
      assert ([ys[0]] + rest)[1..] == rest;
      var head := if key(ys[0]) == k then [ys[0]] else [];
      assert WithKey(ys, key, k) == head + WithKey(tl, key, k);
      assert head == [] || own == [];
      assert head + (own + WithKey(tl, key, k)) == own + (head + WithKey(tl, key, k));
    }
  }

  /** Elements with equal keys keep their relative order. */
  lemma {:induction false} SortStable<T>(xs: seq<T>, key: T -> SortKey, k: SortKey)
    ensures WithKey(SortBy(xs, key), key, k) == WithKey(xs, key, k)
    decreases |xs|
  {
    if |xs| > 0 {
      SortStable(xs[1..], key, k);
      InsertWithKey(xs[0], SortBy(xs[1..], key), key, k);
    }
  }
}
