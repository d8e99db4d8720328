/**
 * Generic sequence operations with the meaning of their JavaScript / MongoDB
 * counterparts: `find`, `filter`, `[...new Set(xs)]`, and a stable ordering
 * by a total preorder (the `sort` stage of a query).
 */
module Seqs {
  import opened Wrappers

  /** No element occurs twice. */
  predicate NoDuplicates<T(==)>(s: seq<T>) {
    forall i, j :: 0 <= i < j < |s| ==> s[i] != s[j]
  }

  /** `findIndex`: the index of the first element satisfying `p`. */
  function FirstWhere<T>(s: seq<T>, p: T -> bool): (r: Option<nat>)
    ensures r.Some? ==> r.value < |s| && p(s[r.value])
    ensures r.Some? ==> forall j :: 0 <= j < r.value ==> !p(s[j])
    ensures r.None? <==> forall j :: 0 <= j < |s| ==> !p(s[j])
  {
    if s == [] then None
    else if p(s[0]) then Some(0)
    else match FirstWhere(s[1..], p)
      case None => None
      case Some(k) => Some(k + 1)
  }

  /** `find`: the first element satisfying `p`. */
  function Find<T>(s: seq<T>, p: T -> bool): (r: Option<T>)
    ensures r.Some? ==> r.value in s && p(r.value)
    ensures r.None? <==> forall j :: 0 <= j < |s| ==> !p(s[j])
    ensures r.Some? ==> exists k :: 0 <= k < |s| && s[k] == r.value
                          && forall j :: 0 <= j < k ==> !p(s[j])
  {
    match FirstWhere(s, p)
    case None => None
    case Some(k) => Some(s[k])
  }

  /** `k` is the position of the first element satisfying `p`. */
  predicate IsFirst<T>(s: seq<T>, p: T -> bool, k: int) {
    0 <= k < |s| && p(s[k]) && forall j :: 0 <= j < k ==> !p(s[j])
  }

  /** `find` returns the element at the first position that satisfies the test. */
  lemma FindIsFirst<T>(s: seq<T>, p: T -> bool)
    ensures forall k :: IsFirst(s, p, k) ==> Find(s, p) == Some(s[k])
  {
    forall k | IsFirst(s, p, k) ensures Find(s, p) == Some(s[k]) {
      var w := FirstWhere(s, p);
      assert w.Some?;
      assert !(w.value < k);
      assert !(k < w.value);
    }
  }

  /** `r` is `s` with some elements left out: its elements occur in `s` in the same order. */
  predicate Subsequence<T(==)>(r: seq<T>, s: seq<T>)
    decreases |s|
  {
    if r == [] then true
    else if s == [] then false
    else if r[0] == s[0] then Subsequence(r[1..], s[1..])
    else Subsequence(r, s[1..])
  }

  /**
   * `r` keeps, in their order in `s`, exactly the elements of `s` that satisfy
   * `p`, each as often as it occurs there.
   */
  ghost predicate KeepsInOrder<T(!new)>(r: seq<T>, s: seq<T>, p: T -> bool) {
    && Subsequence(r, s)
    && forall x :: multiset(r)[x] == if p(x) then multiset(s)[x] else 0
  }

  /** Putting one more element in front: it is kept exactly when it satisfies `p`. */
  lemma KeepsInOrderCons<T(!new)>(h: T, r: seq<T>, t: seq<T>, p: T -> bool)
    requires KeepsInOrder(r, t, p)
    ensures KeepsInOrder((if p(h) then [h] else []) + r, [h] + t, p)
  {
    var s := [h] + t;
    assert s[1..] == t;
    if p(h) {
      var r' := [h] + r;
      assert r'[0] == s[0] && r'[1..] == r;
    } else {
      SubsequenceSkip(r, h, t);
      assert ([] + r) == r;
    }
    var r' := (if p(h) then [h] else []) + r;
    forall x ensures multiset(r')[x] == if p(x) then multiset(s)[x] else 0 {
      assert multiset(s) == multiset([h]) + multiset(t);
      assert multiset(r') == multiset(if p(h) then [h] else []) + multiset(r);
    }
  }

  /** A subsequence of the tail is a subsequence of the whole. */
  lemma {:induction false} SubsequenceSkip<T>(r: seq<T>, h: T, t: seq<T>)
    requires Subsequence(r, t)
    ensures Subsequence(r, [h] + t)
    decreases |t|, 1
  {
    var s := [h] + t;
    assert s[1..] == t;
    if r != [] && r[0] == h {
      SubsequenceTail(r, t);
    }
  }

  /** Leaving out the first element of a subsequence keeps it a subsequence. */
  lemma {:induction false} SubsequenceTail<T>(r: seq<T>, t: seq<T>)
    requires Subsequence(r, t) && r != []
    ensures Subsequence(r[1..], t)
    decreases |t|, 0
  {
    assert t == [t[0]] + t[1..];
    if r[0] == t[0] {
      SubsequenceSkip(r[1..], t[0], t[1..]);
    } else {
      SubsequenceTail(r, t[1..]);
      SubsequenceSkip(r[1..], t[0], t[1..]);
    }
  }

  /** A subsequence holds each element at most as often as the sequence does. */
  lemma {:induction false} SubsequenceMultiset<T>(r: seq<T>, s: seq<T>)
    requires Subsequence(r, s)
    ensures multiset(r) <= multiset(s)
    decreases |s|
  {
    if r != [] {
      assert s == [s[0]] + s[1..];
      if r[0] == s[0] {
        SubsequenceMultiset(r[1..], s[1..]);
        assert r == [r[0]] + r[1..];
      } else {
        SubsequenceMultiset(r, s[1..]);
      }
    }
  }

  /** `KeepsInOrder` determines its sequence: the only such sequence is `Filter(s, p)`. */
  lemma {:induction false} KeepsInOrderIsFilter<T(!new)>(r: seq<T>, s: seq<T>, p: T -> bool)
    requires KeepsInOrder(r, s, p)
    ensures r == Filter(s, p)
    decreases |s|
  {
    if s == [] {
      assert r == [];
    } else {
      var h, t := s[0], s[1..];
      assert s == [h] + t;
      assert multiset(s)[h] == multiset(t)[h] + 1;
      if p(h) {
        assert h in multiset(r);
        if r[0] == h {
          assert r == [h] + r[1..];
          forall x ensures multiset(r[1..])[x] == if p(x) then multiset(t)[x] else 0 {
            assert multiset(r) == multiset([h]) + multiset(r[1..]);
          }
          KeepsInOrderIsFilter(r[1..], t, p);
        } else {
          SubsequenceMultiset(r, t);
          assert false;
        }
      } else {
        assert h !in r;
        assert r == [] || r[0] != h;
        assert Subsequence(r, t);
        forall x ensures multiset(r)[x] == if p(x) then multiset(t)[x] else 0 {
          assert multiset(s) == multiset([h]) + multiset(t);
        }
        KeepsInOrderIsFilter(r, t, p);
      }
    }
  }

  /** `filter`: the elements satisfying `p`, in their original order. */
  function Filter<T(!new)>(s: seq<T>, p: T -> bool): (r: seq<T>)
    ensures |r| <= |s|
    ensures forall x :: x in r <==> x in s && p(x)
    decreases |s|
  {
    if s == [] then []
    else (if p(s[0]) then [s[0]] else []) + Filter(s[1..], p)
  }

  /** `Filter` keeps, in order and with their multiplicity, exactly the elements satisfying `p`. */
  lemma {:induction false} FilterKeepsInOrder<T(!new)>(s: seq<T>, p: T -> bool)
    ensures KeepsInOrder(Filter(s, p), s, p)
    decreases |s|
  {
    if s != [] {
      FilterKeepsInOrder(s[1..], p);
      KeepsInOrderCons(s[0], Filter(s[1..], p), s[1..], p);
      assert [s[0]] + s[1..] == s;
    }
  }

  /** Filtering distributes over concatenation. */
  lemma {:induction false} FilterAppend<T(!new)>(a: seq<T>, b: seq<T>, p: T -> bool)
    ensures Filter(a + b, p) == Filter(a, p) + Filter(b, p)
    decreases |a|
  {
    if a == [] {
      assert a + b == b;
    } else {
      var ab := a + b;
      assert ab[0] == a[0];
      assert ab[1..] == a[1..] + b;
      var h := if p(a[0]) then [a[0]] else [];
      calc {
        Filter(ab, p);
        h + Filter(a[1..] + b, p);
        { FilterAppend(a[1..], b, p); }
        h + (Filter(a[1..], p) + Filter(b, p));
        (h + Filter(a[1..], p)) + Filter(b, p);
        Filter(a, p) + Filter(b, p);
      }
    }
  }

  /** Filtering with a predicate every element meets changes nothing. */
  lemma {:induction false} FilterAll<T(!new)>(s: seq<T>, p: T -> bool)
    requires forall j :: 0 <= j < |s| ==> p(s[j])
    ensures Filter(s, p) == s
    decreases |s|
  {
    if s != [] {
      FilterAll(s[1..], p);
    }
  }

  /** The position of the first occurrence of `x` (`indexOf` on arrays). */
  function FirstIndex<T(==)>(s: seq<T>, x: T): (r: nat)
    requires x in s
    ensures r < |s| && s[r] == x
    ensures forall j :: 0 <= j < r ==> s[j] != x
  {
    if s[0] == x then 0 else 1 + FirstIndex(s[1..], x)
  }

  /** The distinct elements of `s` not in `seen`, ordered by their first occurrence in `s`. */
  function DedupeFrom<T(==,!new)>(s: seq<T>, seen: set<T>): (r: seq<T>)
    ensures forall x :: x in r <==> x in s && x !in seen
    ensures NoDuplicates(r)
    ensures |r| <= |s|
    ensures forall i, j :: 0 <= i < j < |r| ==> FirstIndex(s, r[i]) < FirstIndex(s, r[j])
  {
    if s == [] then []
    else if s[0] in seen then DedupeFrom(s[1..], seen)
    else [s[0]] + DedupeFrom(s[1..], seen + {s[0]})
  }

  /**
   * `[...new Set(s)]`: the distinct elements of `s`, each at the position of its
   * first occurrence.
   */
  function Dedupe<T(==,!new)>(s: seq<T>): (r: seq<T>)
    ensures forall x :: x in r <==> x in s
    ensures NoDuplicates(r)
    ensures |r| <= |s|
    ensures forall i, j :: 0 <= i < j < |r| ==> FirstIndex(s, r[i]) < FirstIndex(s, r[j])
  {
    DedupeFrom(s, {})
  }

  /** A duplicate-free sequence is left unchanged by `Dedupe`. */
  lemma {:induction false} DedupeFromDistinct<T(!new)>(s: seq<T>, seen: set<T>)
    requires NoDuplicates(s)
    requires forall j :: 0 <= j < |s| ==> s[j] !in seen
    ensures DedupeFrom(s, seen) == s
    decreases |s|
  {
    if s != [] {
      DedupeFromDistinct(s[1..], seen + {s[0]});
    }
  }

  /** The length of a duplicate-free sequence is the number of distinct values in it. */
  lemma {:induction false} DistinctLength<T>(s: seq<T>)
    requires NoDuplicates(s)
    ensures |set x | x in s| == |s|
    decreases |s|
  {
    if s != [] {
      DistinctLength(s[1..]);
      assert (set x | x in s) == {s[0]} + (set x | x in s[1..]);
    }
  }

  /** A subset is no larger than its superset. */
  lemma {:induction false} SubsetSize<T>(a: set<T>, b: set<T>)
    requires a <= b
    ensures |a| <= |b|
    decreases |a|
  {
    if a != {} {
      var y :| y in a;
      SubsetSize(a - {y}, b - {y});
    }
  }

  /** A subset as large as its superset is the whole superset. */
  lemma SubsetSameSize<T>(a: set<T>, b: set<T>)
    requires a <= b && |a| == |b|
    ensures a == b
  {
    if a != b {
      var x :| x in b && x !in a;
      SubsetSize(a, b - {x});
    }
  }

  /** `rel` is a total preorder: every two values compare, and comparison chains. */
  ghost predicate TotalPreorder<T(!new)>(rel: (T, T) -> bool) {
    && (forall a, b :: rel(a, b) || rel(b, a))
    && (forall a, b, c :: rel(a, b) && rel(b, c) ==> rel(a, c))
  }

  /** Every element comes no later, under `rel`, than every element after it. */
  predicate SortedBy<T>(s: seq<T>, rel: (T, T) -> bool) {
    forall i, j :: 0 <= i < j < |s| ==> rel(s[i], s[j])
  }

  function Insert<T(!new)>(x: T, s: seq<T>, rel: (T, T) -> bool): (r: seq<T>)
    requires TotalPreorder(rel) && SortedBy(s, rel)
    ensures SortedBy(r, rel)
    ensures multiset(r) == multiset(s) + multiset{x}
    ensures forall y :: y in r ==> y == x || y in s
  {
    if s == [] then [x]
    else if rel(x, s[0]) then [x] + s
    else
      var rest := Insert(x, s[1..], rel);
      assert s == [s[0]] + s[1..];
      assert forall y :: y in rest ==> rel(s[0], y) by {
        forall y | y in rest ensures rel(s[0], y) {
          if y != x {
            var k :| 0 <= k < |s[1..]| && s[1..][k] == y;
            assert s[k + 1] == y;
          }
        }
      }
      var r := [s[0]] + rest;
      assert forall j :: 0 < j < |r| ==> r[j] in rest by {
        forall j | 0 < j < |r| ensures r[j] in rest { assert r[j] == rest[j - 1]; }
      }
      r
  }

  /** The ordering stage of a query: a sorted permutation of `s`. */
  function SortBy<T(!new)>(s: seq<T>, rel: (T, T) -> bool): (r: seq<T>)
    requires TotalPreorder(rel)
    ensures SortedBy(r, rel)
    ensures multiset(r) == multiset(s)
  {
    if s == [] then []
    else
      assert s == [s[0]] + s[1..];
      Insert(s[0], SortBy(s[1..], rel), rel)
  }

  /** `reverse`. */
  function Reverse<T>(s: seq<T>): (r: seq<T>)
    ensures |r| == |s|
    ensures forall i :: 0 <= i < |s| ==> r[i] == s[|s| - 1 - i]
  {
    seq(|s|, i requires 0 <= i < |s| => s[|s| - 1 - i])
  }

  /** Reversing a slice gives the mirrored slice of the reversed sequence. */
  lemma {:induction false} ReverseSlice<T>(s: seq<T>, a: nat, b: nat)
    requires a <= b <= |s|
    ensures Reverse(s[a..b]) == Reverse(s)[|s| - b .. |s| - a]
  {
    var t := s[a..b];
    var l := Reverse(t);
    var rs := Reverse(s);
    var r := rs[|s| - b .. |s| - a];
    assert |l| == |r|;
    forall i | 0 <= i < |l| ensures l[i] == r[i] {
      calc {
        l[i];
        t[|t| - 1 - i];
        s[b - 1 - i];
        rs[|s| - b + i];
        r[i];
      }
    }
  }

  /** No two elements share a key. */
  predicate DistinctBy<T, K(==)>(s: seq<T>, key: T -> K) {
    forall i, j :: 0 <= i < j < |s| ==> key(s[i]) != key(s[j])
  }

  /** Filtering keeps keys distinct (the result is a subsequence). */
  lemma {:induction false} FilterDistinctBy<T(!new), K>(s: seq<T>, p: T -> bool, key: T -> K)
    requires DistinctBy(s, key)
    ensures DistinctBy(Filter(s, p), key)
    decreases |s|
  {
    if s != [] {
      assert DistinctBy(s[1..], key) by {
        forall i, j | 0 <= i < j < |s[1..]| ensures key(s[1..][i]) != key(s[1..][j]) {
          assert s[1..][i] == s[i + 1] && s[1..][j] == s[j + 1];
        }
      }
      FilterDistinctBy(s[1..], p, key);
      if p(s[0]) {
        var rest := Filter(s[1..], p);
        var r := [s[0]] + rest;
        forall i, j | 0 <= i < j < |r| ensures key(r[i]) != key(r[j]) {
          assert r[j] == rest[j - 1];
          if i == 0 {
            assert rest[j - 1] in s[1..];
            var k :| 0 <= k < |s[1..]| && s[1..][k] == rest[j - 1];
            assert s[k + 1] == r[j];
          } else {
            assert r[i] == rest[i - 1];
          }
        }
      }
    }
  }

  /** Applies `f` to every element satisfying `p` (an update by filter); the rest stay. */
  function MapWhere<T>(s: seq<T>, p: T -> bool, f: T -> T): (r: seq<T>)
    ensures |r| == |s|
    ensures forall i :: 0 <= i < |s| ==> r[i] == (if p(s[i]) then f(s[i]) else s[i])
  {
    seq(|s|, i requires 0 <= i < |s| => if p(s[i]) then f(s[i]) else s[i])
  }
}
