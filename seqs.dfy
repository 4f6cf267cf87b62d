/**
 * The collection primitives the source uses on whole lists: JavaScript's
 * `filter`, `map` over the elements matching an id, `find`, `reduce` into a
 * sum, a stable `sort` by a numeric key, and the totals of a map of counts.
 */
module Seqs {
  import opened Wrappers

  // ---------------------------------------------------------------------
  // filter
  // ---------------------------------------------------------------------

  /** `s.filter(p)`: the elements satisfying `p`, in their original order. */
  function Filter<T>(s: seq<T>, p: T -> bool): (r: seq<T>)
    ensures |r| <= |s|
    ensures forall x :: x in r ==> x in s && p(x)
    ensures forall x :: x in s && p(x) ==> x in r
    ensures multiset(r) <= multiset(s)
    decreases |s|
  {
    if s == [] then []
    else
      assert s == [s[0]] + s[1..];
      if p(s[0]) then [s[0]] + Filter(s[1..], p) else Filter(s[1..], p)
  }

  lemma {:induction false} FilterAppend<T>(a: seq<T>, b: seq<T>, p: T -> bool)
    ensures Filter(a + b, p) == Filter(a, p) + Filter(b, p)
    decreases |a|
  {
    if a == [] {
      assert a + b == b;
    } else {
      var x, c := a[0], a[1..];
      assert (a + b)[0] == x && (a + b)[1..] == c + b;
      FilterAppend(c, b, p);
      var h := if p(x) then [x] else [];
      assert h + (Filter(c, p) + Filter(b, p)) == (h + Filter(c, p)) + Filter(b, p);
    }
  }

  /** Filtering a list extended by one element extends the result by it when it passes. */
  lemma FilterSnoc<T>(s: seq<T>, x: T, p: T -> bool)
    ensures Filter(s + [x], p) == Filter(s, p) + (if p(x) then [x] else [])
  {
    FilterAppend(s, [x], p);
    assert [x][1..] == [];
  }

  /** Filtering twice by the same predicate changes nothing more. */
  lemma {:induction false} FilterIdempotent<T>(s: seq<T>, p: T -> bool)
    ensures Filter(Filter(s, p), p) == Filter(s, p)
    decreases |s|
  {
    if s != [] {
      FilterIdempotent(s[1..], p);
    }
  }

  /** A predicate and its negation split a list: the two counts add up to its length. */
  lemma {:induction false} FilterPartition<T>(s: seq<T>, p: T -> bool, q: T -> bool)
    requires forall x :: q(x) == !p(x)
    ensures |Filter(s, p)| + |Filter(s, q)| == |s|
    ensures multiset(Filter(s, p)) + multiset(Filter(s, q)) == multiset(s)
    decreases |s|
  {
    if s != [] {
      FilterPartition(s[1..], p, q);
      assert s == [s[0]] + s[1..];
    }
  }

  /** Number of elements satisfying `p`: `s.filter(p).length`. */
  function Count<T>(s: seq<T>, p: T -> bool): (n: nat)
    decreases |s|
  {
    if s == [] then 0 else (if p(s[0]) then 1 else 0) + Count(s[1..], p)
  }

  /** Counting is the length of the filtered list. */
  lemma {:induction false} CountIsFilterLength<T>(s: seq<T>, p: T -> bool)
    ensures Count(s, p) == |Filter(s, p)|
    decreases |s|
  {
    if s != [] {
      CountIsFilterLength(s[1..], p);
    }
  }

  /**
   * A count never exceeds the length; it is zero exactly when no element
   * satisfies `p`, and the length exactly when every element does.
   */
  lemma {:induction false} CountBounds<T>(s: seq<T>, p: T -> bool)
    ensures Count(s, p) <= |s|
    ensures Count(s, p) == 0 <==> forall i :: 0 <= i < |s| ==> !p(s[i])
    ensures Count(s, p) == |s| <==> forall i :: 0 <= i < |s| ==> p(s[i])
    decreases |s|
  {
    if s != [] {
      CountBounds(s[1..], p);
      assert forall i :: 1 <= i < |s| ==> s[1..][i - 1] == s[i];
    }
  }

  lemma {:induction false} CountAppend<T>(a: seq<T>, b: seq<T>, p: T -> bool)
    ensures Count(a + b, p) == Count(a, p) + Count(b, p)
    decreases |a|
  {
    if a == [] {
      assert a + b == b;
    } else {
      assert (a + b)[0] == a[0] && (a + b)[1..] == a[1..] + b;
      CountAppend(a[1..], b, p);
    }
  }

  /** The count of a list extended by one element. */
  lemma CountSnoc<T>(s: seq<T>, x: T, p: T -> bool)
    ensures Count(s + [x], p) == Count(s, p) + (if p(x) then 1 else 0)
  {
    CountAppend(s, [x], p);
    assert [x][1..] == [];
  }

  /** The count depends only on which elements there are, not on their order. */
  lemma {:induction false} CountPermutation<T>(a: seq<T>, b: seq<T>, p: T -> bool)
    requires multiset(a) == multiset(b)
    ensures Count(a, p) == Count(b, p)
    decreases |a|
  {
    if a != [] {
      assert a[0] in multiset(b);
      var k :| 0 <= k < |b| && b[k] == a[0];
      var rest := b[..k] + b[k + 1..];
      assert b == b[..k] + [b[k]] + b[k + 1..];
      assert a == [a[0]] + a[1..];
      assert multiset(b) == multiset(b[..k]) + multiset{b[k]} + multiset(b[k + 1..]);
      assert multiset(a) == multiset{a[0]} + multiset(a[1..]);
      assert multiset(rest) == multiset(b[..k]) + multiset(b[k + 1..]);
      assert multiset(a[1..]) == multiset(a) - multiset{a[0]};
      assert multiset(rest) == multiset(b) - multiset{b[k]};
      CountPermutation(a[1..], rest, p);
      CountAppend([a[0]], a[1..], p);
      CountAppend(b[..k] + [b[k]], b[k + 1..], p);
      CountAppend(b[..k], [b[k]], p);
      CountAppend(b[..k], b[k + 1..], p);
    } else {
      assert b == [];
    }
  }

  // ---------------------------------------------------------------------
  // reduce to a sum
  // ---------------------------------------------------------------------

  /** `s.reduce((sum, x) => sum + f(x), 0)`. */
  function Sum<T>(s: seq<T>, f: T -> real): real
    decreases |s|
  {
    if s == [] then 0.0 else f(s[0]) + Sum(s[1..], f)
  }

  lemma {:induction false} SumAppend<T>(a: seq<T>, b: seq<T>, f: T -> real)
    ensures Sum(a + b, f) == Sum(a, f) + Sum(b, f)
    decreases |a|
  {
    if a == [] {
      assert a + b == b;
    } else {
      assert (a + b)[0] == a[0] && (a + b)[1..] == a[1..] + b;
      SumAppend(a[1..], b, f);
    }
  }

  /** A sum of non-negative terms is non-negative. */
  lemma {:induction false} SumNonNegative<T>(s: seq<T>, f: T -> real)
    requires forall i :: 0 <= i < |s| ==> f(s[i]) >= 0.0
    ensures Sum(s, f) >= 0.0
    decreases |s|
  {
    if s != [] {
      assert forall i :: 0 <= i < |s[1..]| ==> s[1..][i] == s[i + 1];
      SumNonNegative(s[1..], f);
    }
  }

  // ---------------------------------------------------------------------
  // map over the matching elements
  // ---------------------------------------------------------------------

  /** `s.map(x => m(x) ? f(x) : x)`. */
  function UpdateWhere<T>(s: seq<T>, m: T -> bool, f: T -> T): (r: seq<T>)
    ensures |r| == |s|
    ensures forall i :: 0 <= i < |s| ==> r[i] == if m(s[i]) then f(s[i]) else s[i]
    decreases |s|
  {
    if s == [] then [] else [if m(s[0]) then f(s[0]) else s[0]] + UpdateWhere(s[1..], m, f)
  }

  /** The count of a list with a given first element. */
  lemma CountCons<T>(x: T, t: seq<T>, p: T -> bool)
    ensures Count([x] + t, p) == (if p(x) then 1 else 0) + Count(t, p)
  {
    CountAppend([x], t, p);
  }

  /** The first step of `UpdateWhere`, with its pieces named. */
  lemma UpdateWhereCons<T>(s: seq<T>, m: T -> bool, f: T -> T)
    requires s != []
    ensures UpdateWhere(s, m, f) == [if m(s[0]) then f(s[0]) else s[0]] + UpdateWhere(s[1..], m, f)
    ensures s == [s[0]] + s[1..]
  {
  }

  /**
   * An update that takes every element it touches out of `p` never adds to
   * the elements satisfying `p`, and removes at least one when it touches
   * one that satisfied `p`.
   */
  lemma CountUpdateWhere<T>(s: seq<T>, m: T -> bool, f: T -> T, p: T -> bool)
    requires forall x :: m(x) ==> !p(f(x))
    ensures Count(UpdateWhere(s, m, f), p) <= Count(s, p)
    ensures (exists i :: 0 <= i < |s| && m(s[i]) && p(s[i])) ==> Count(UpdateWhere(s, m, f), p) < Count(s, p)
  {
    CountUpdateWhereAtMost(s, m, f, p);
    if exists i :: 0 <= i < |s| && m(s[i]) && p(s[i]) {
      var i :| 0 <= i < |s| && m(s[i]) && p(s[i]);
      CountUpdateWhereBelow(s, m, f, p, i);
    }
  }

  lemma {:induction false} CountUpdateWhereAtMost<T>(s: seq<T>, m: T -> bool, f: T -> T, p: T -> bool)
    requires forall x :: m(x) ==> !p(f(x))
    ensures Count(UpdateWhere(s, m, f), p) <= Count(s, p)
    decreases |s|
  {
    if s != [] {
      var h, t := if m(s[0]) then f(s[0]) else s[0], UpdateWhere(s[1..], m, f);
      CountUpdateWhereAtMost(s[1..], m, f, p);
      UpdateWhereCons(s, m, f);
      CountCons(h, t, p);
      CountCons(s[0], s[1..], p);
    }
  }

  lemma {:induction false} CountUpdateWhereBelow<T>(s: seq<T>, m: T -> bool, f: T -> T, p: T -> bool, i: nat)
    requires forall x :: m(x) ==> !p(f(x))
    requires i < |s| && m(s[i]) && p(s[i])
    ensures Count(UpdateWhere(s, m, f), p) < Count(s, p)
    decreases i
  {
    var h, t := if m(s[0]) then f(s[0]) else s[0], UpdateWhere(s[1..], m, f);
    UpdateWhereCons(s, m, f);
    CountCons(h, t, p);
    CountCons(s[0], s[1..], p);
    assert (if p(h) then 1 else 0) <= (if p(s[0]) then 1 else 0);
    if i == 0 {
      CountUpdateWhereAtMost(s[1..], m, f, p);
    } else {
      assert s[1..][i - 1] == s[i];
      CountUpdateWhereBelow(s[1..], m, f, p, i - 1);
    }
  }

  /** With no matching element the list comes back unchanged. */
  lemma UpdateWhereNoMatch<T>(s: seq<T>, m: T -> bool, f: T -> T)
    requires forall i :: 0 <= i < |s| ==> !m(s[i])
    ensures UpdateWhere(s, m, f) == s
  {
  }

  /**
   * Updating twice is updating once when the update is idempotent and
   * keeps the elements it touches matching.
   */
  lemma UpdateWhereIdempotent<T>(s: seq<T>, m: T -> bool, f: T -> T)
    requires forall x :: m(x) ==> m(f(x)) && f(f(x)) == f(x)
    ensures UpdateWhere(UpdateWhere(s, m, f), m, f) == UpdateWhere(s, m, f)
  {
  }

  // ---------------------------------------------------------------------
  // find
  // ---------------------------------------------------------------------

  /** Index of the first element satisfying `p`, as `findIndex` gives it. */
  function FirstIndex<T>(s: seq<T>, p: T -> bool): (r: Option<nat>)
    ensures r.Some? ==> r.value < |s| && p(s[r.value]) && forall j :: 0 <= j < r.value ==> !p(s[j])
    ensures r.None? ==> forall j :: 0 <= j < |s| ==> !p(s[j])
    decreases |s|
  {
    if s == [] then None
    else if p(s[0]) then Some(0)
    else
      match FirstIndex(s[1..], p)
      case None => None
      case Some(k) => Some(k + 1)
  }

  /** `s.find(p)`: the first element satisfying `p`. */
  function Find<T>(s: seq<T>, p: T -> bool): (r: Option<T>)
    ensures r.Some? <==> exists i :: 0 <= i < |s| && p(s[i])
    ensures r.Some? ==> r.value in s && p(r.value)
    ensures r.Some? ==> exists k :: 0 <= k < |s| && r.value == s[k] && p(s[k]) && forall j :: 0 <= j < k ==> !p(s[j])
  {
    match FirstIndex(s, p)
    case None => None
    case Some(k) => Some(s[k])
  }

  // ---------------------------------------------------------------------
  // stable sort by an integer key
  // ---------------------------------------------------------------------

  predicate SortedBy<T>(s: seq<T>, key: T -> int) {
    forall i, j :: 0 <= i < j < |s| ==> key(s[i]) <= key(s[j])
  }

  /** The elements whose key is `k`, in their original order. */
  function WithKey<T>(s: seq<T>, key: T -> int, k: int): seq<T>
    decreases |s|
  {
    if s == [] then [] else (if key(s[0]) == k then [s[0]] else []) + WithKey(s[1..], key, k)
  }

  /** Inserts `x` in front of the first element whose key is not smaller. */
  function Insert<T>(x: T, s: seq<T>, key: T -> int): (r: seq<T>)
    ensures multiset(r) == multiset(s) + multiset{x}
    decreases |s|
  {
    if s == [] || key(x) <= key(s[0]) then [x] + s
    else
      assert s == [s[0]] + s[1..];
      [s[0]] + Insert(x, s[1..], key)
  }

  /** Inserting into a sorted list keeps it sorted. */
  lemma {:induction false} InsertSorted<T>(x: T, s: seq<T>, key: T -> int)
    requires SortedBy(s, key)
    ensures SortedBy(Insert(x, s, key), key)
    decreases |s|
  {
    if s != [] && key(x) > key(s[0]) {
      var t := s[1..];
      var rest := Insert(x, t, key);
      InsertSorted(x, t, key);
      var r := [s[0]] + rest;
      assert Insert(x, s, key) == r;
      forall i, j | 0 <= i < j < |r|
        ensures key(r[i]) <= key(r[j])
      {
        var y := rest[j - 1];
        assert r[j] == y;
        if i == 0 {
          assert y in multiset(rest);
          if y != x {
            assert y in multiset(t);
            var m :| 0 <= m < |t| && t[m] == y;
            assert s[m + 1] == y;
          }
        } else {
          assert r[i] == rest[i - 1];
        }
      }
    }
  }

  lemma {:induction false} WithKeyAppend<T>(a: seq<T>, b: seq<T>, key: T -> int, k: int)
    ensures WithKey(a + b, key, k) == WithKey(a, key, k) + WithKey(b, key, k)
    decreases |a|
  {
    if a == [] {
      assert a + b == b;
    } else {
      var x, c := a[0], a[1..];
      assert (a + b)[0] == x && (a + b)[1..] == c + b;
      WithKeyAppend(c, b, key, k);
      var h := if key(x) == k then [x] else [];
      assert h + (WithKey(c, key, k) + WithKey(b, key, k)) == (h + WithKey(c, key, k)) + WithKey(b, key, k);
    }
  }

  /** Insertion puts `x` ahead of every element with the same key. */
  lemma {:induction false} InsertWithKey<T>(x: T, s: seq<T>, key: T -> int, k: int)
    ensures WithKey(Insert(x, s, key), key, k) == (if key(x) == k then [x] else []) + WithKey(s, key, k)
    decreases |s|
  {
    if s == [] || key(x) <= key(s[0]) {
      WithKeyAppend([x], s, key, k);
    } else {
      InsertWithKey(x, s[1..], key, k);
      WithKeyAppend([s[0]], Insert(x, s[1..], key), key, k);
      WithKeyAppend([s[0]], s[1..], key, k);
      assert s == [s[0]] + s[1..];
    }
  }

  /**
   * `[...s].sort((a, b) => key(a) - key(b))`: sorted by key, a permutation
   * of the input, and stable (elements with equal keys keep their order).
   */
  function SortBy<T>(s: seq<T>, key: T -> int): (r: seq<T>)
    ensures SortedBy(r, key)
    ensures multiset(r) == multiset(s)
    decreases |s|
  {
    if s == [] then []
    else
      assert s == [s[0]] + s[1..];
      InsertSorted(s[0], SortBy(s[1..], key), key);
      Insert(s[0], SortBy(s[1..], key), key)
  }

  /** The sort is stable: the elements with any one key keep their relative order. */
  lemma {:induction false} SortByStable<T>(s: seq<T>, key: T -> int, k: int)
    ensures WithKey(SortBy(s, key), key, k) == WithKey(s, key, k)
    decreases |s|
  {
    if s != [] {
      SortByStable(s[1..], key, k);
      InsertWithKey(s[0], SortBy(s[1..], key), key, k);
      WithKeyAppend([s[0]], s[1..], key, k);
      assert s == [s[0]] + s[1..];
    }
  }

  // ---------------------------------------------------------------------
  // totals of a map of counts
  // ---------------------------------------------------------------------

  /** The sum of the values of a map. */
  ghost function MapSum<K>(m: map<K, int>): int
    decreases |m|
  {
    if m == map[] then 0
    else
      var k :| k in m;
      m[k] + MapSum(m - {k})
  }

  /** Any key may be taken out first: the sum does not depend on the order. */
  lemma {:induction false} MapSumRemove<K>(m: map<K, int>, x: K)
    requires x in m
    ensures MapSum(m) == m[x] + MapSum(m - {x})
    decreases |m|
  {
    var k :| k in m && MapSum(m) == m[k] + MapSum(m - {k});
    if k != x {
      var m1 := m - {k};
      var m2 := m - {x};
      assert |m1| < |m| && |m2| < |m|;
      MapSumRemove(m1, x);
      MapSumRemove(m2, k);
      assert m1 - {x} == m2 - {k};
    }
  }

  /** Some element of a non-empty set. */
  lemma Pick<T>(s: set<T>) returns (x: T)
    requires s != {}
    ensures x in s
  {
    x :| x in s;
  }

  /** The count a tally map holds for `d`; an absent key counts 0. */
  function MapCount<K>(m: map<K, int>, d: K): int {
    if d in m then m[d] else 0
  }

  /** The tally after one more `d`. */
  function Bump<K(!new)>(m: map<K, int>, d: K): (r: map<K, int>)
    ensures r.Keys == m.Keys + {d}
    ensures MapCount(r, d) == MapCount(m, d) + 1
    ensures forall x :: x != d ==> MapCount(r, x) == MapCount(m, x)
  {
    m[d := MapCount(m, d) + 1]
  }

  /** Adding one to the count of `d` (0 when absent) adds one to the total. */
  lemma MapSumIncrement<K>(m: map<K, int>, d: K)
    ensures MapSum(m[d := (if d in m then m[d] else 0) + 1]) == MapSum(m) + 1
  {
    var m' := m[d := (if d in m then m[d] else 0) + 1];
    MapSumRemove(m', d);
    assert m' - {d} == m - {d};
    if d in m {
      MapSumRemove(m, d);
    } else {
      assert m - {d} == m;
    }
  }
}
