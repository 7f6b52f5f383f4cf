/** Sequence helpers: order-preserving filtering (a boolean-mask row selection),
    element-wise mapping (a column), sums and the counting of a partition. */
module Seqs {

  /** The elements of `s` that satisfy `p`, in the order of `s`. */
  function Filter<T(!new)>(s: seq<T>, p: T -> bool): (r: seq<T>)
    ensures |r| <= |s|
    ensures forall x :: x in r <==> x in s && p(x)
    decreases |s|
  {
    if |s| == 0 then []
    else
      assert s == s[..|s| - 1] + [s[|s| - 1]];
      Filter(s[..|s| - 1], p) + (if p(s[|s| - 1]) then [s[|s| - 1]] else [])
  }

  lemma FilterSnoc<T(!new)>(s: seq<T>, x: T, p: T -> bool)
    ensures Filter(s + [x], p) == Filter(s, p) + (if p(x) then [x] else [])
  {
    assert (s + [x])[..|s|] == s;
  }

  /** Filtering distributes over concatenation: it keeps the relative order. */
  lemma {:induction false} FilterAppend<T(!new)>(a: seq<T>, b: seq<T>, p: T -> bool)
    ensures Filter(a + b, p) == Filter(a, p) + Filter(b, p)
    decreases |b|
  {
    if |b| == 0 {
      assert a + b == a;
    } else {
      var b', y := b[..|b| - 1], b[|b| - 1];
      assert b == b' + [y];
      assert a + b == (a + b') + [y];
      var tail := if p(y) then [y] else [];
      calc {
        Filter(a + b, p);
        { FilterSnoc(a + b', y, p); }
        Filter(a + b', p) + tail;
        { FilterAppend(a, b', p); }
        (Filter(a, p) + Filter(b', p)) + tail;
        Filter(a, p) + (Filter(b', p) + tail);
        { FilterSnoc(b', y, p); }
        Filter(a, p) + Filter(b, p);
      }
    }
  }

  function Map<T, U>(s: seq<T>, f: T -> U): (r: seq<U>)
    ensures |r| == |s|
    ensures forall i :: 0 <= i < |s| ==> r[i] == f(s[i])
  {
    seq(|s|, i requires 0 <= i < |s| => f(s[i]))
  }

  lemma MapSnoc<T, U>(s: seq<T>, x: T, f: T -> U)
    ensures Map(s + [x], f) == Map(s, f) + [f(x)]
  {
  }

  function Sum(xs: seq<real>): real
    decreases |xs|
  {
    if |xs| == 0 then 0.0 else Sum(xs[..|xs| - 1]) + xs[|xs| - 1]
  }

  lemma SumSnoc(xs: seq<real>, x: real)
    ensures Sum(xs + [x]) == Sum(xs) + x
  {
    assert (xs + [x])[..|xs|] == xs;
  }

  predicate Distinct<T(==)>(s: seq<T>) {
    forall i, j :: 0 <= i < j < |s| ==> s[i] != s[j]
  }

  /** The selector "key(x) == k", one group of a partition by `key`. */
  function KeyIs<T(!new), K(==)>(key: T -> K, k: K): (p: T -> bool)
    ensures forall x :: p(x) <==> key(x) == k
  {
    x => key(x) == k
  }

  /** The total size of the groups of `s` for the keys `ks`, one after another. */
  function GroupSizes<T(!new), K(==)>(s: seq<T>, key: T -> K, ks: seq<K>): nat
    decreases |ks|
  {
    if |ks| == 0 then 0
    else GroupSizes(s, key, ks[..|ks| - 1]) + |Filter(s, KeyIs(key, ks[|ks| - 1]))|
  }

  /** The number of positions of `ks` holding `k`. */
  function Occurrences<K(==)>(ks: seq<K>, k: K): nat
    decreases |ks|
  {
    if |ks| == 0 then 0
    else Occurrences(ks[..|ks| - 1], k) + (if ks[|ks| - 1] == k then 1 else 0)
  }

  lemma {:induction false} GroupSizesSnoc<T(!new), K>(s: seq<T>, x: T, key: T -> K, ks: seq<K>)
    ensures GroupSizes(s + [x], key, ks) == GroupSizes(s, key, ks) + Occurrences(ks, key(x))
    decreases |ks|
  {
    if |ks| > 0 {
      GroupSizesSnoc(s, x, key, ks[..|ks| - 1]);
      FilterSnoc(s, x, KeyIs(key, ks[|ks| - 1]));
    }
  }

  lemma {:induction false} OccurrencesOfDistinct<K>(ks: seq<K>, k: K)
    requires Distinct(ks)
    ensures Occurrences(ks, k) == if k in ks then 1 else 0
    decreases |ks|
  {
    if |ks| > 0 {
      var ks' := ks[..|ks| - 1];
      assert ks == ks' + [ks[|ks| - 1]];
      OccurrencesOfDistinct(ks', k);
      if ks[|ks| - 1] == k {
        assert k !in ks' by {
          forall i | 0 <= i < |ks'| ensures ks'[i] != k {
            assert ks[i] != ks[|ks| - 1];
          }
        }
      }
    }
  }

  /** Grouping by a key whose every value is listed exactly once loses no element
      and counts none twice. */
  lemma {:induction false} PartitionSizes<T(!new), K>(s: seq<T>, key: T -> K, ks: seq<K>)
    requires Distinct(ks)
    requires forall x :: x in s ==> key(x) in ks
    ensures GroupSizes(s, key, ks) == |s|
    decreases |s|
  {
    if |s| == 0 {
      GroupSizesOfEmpty(key, ks);
    } else {
      var s', x := s[..|s| - 1], s[|s| - 1];
      assert s == s' + [x];
      PartitionSizes(s', key, ks);
      GroupSizesSnoc(s', x, key, ks);
      OccurrencesOfDistinct(ks, key(x));
    }
  }

  lemma {:induction false} GroupSizesOfEmpty<T(!new), K>(key: T -> K, ks: seq<K>)
    ensures GroupSizes([], key, ks) == 0
    decreases |ks|
  {
    if |ks| > 0 {
      GroupSizesOfEmpty(key, ks[..|ks| - 1]);
    }
  }

  lemma MapAppend<T, U>(a: seq<T>, b: seq<T>, f: T -> U)
    ensures Map(a + b, f) == Map(a, f) + Map(b, f)
  {
    var l, r := Map(a + b, f), Map(a, f) + Map(b, f);
    forall i | 0 <= i < |l| ensures l[i] == r[i] {
      if i < |a| {
        assert (a + b)[i] == a[i];
      } else {
        assert (a + b)[i] == b[i - |a|];
      }
    }
  }

  /** A value occurs in a mapped column iff some element maps to it. */
  lemma InMap<T(!new), U(!new)>(s: seq<T>, f: T -> U)
    ensures forall y :: y in Map(s, f) <==> exists x :: x in s && f(x) == y
  {
    forall y | y in Map(s, f) ensures exists x :: x in s && f(x) == y {
      var i :| 0 <= i < |s| && Map(s, f)[i] == y;
      assert s[i] in s;
    }
    forall y | (exists x :: x in s && f(x) == y) ensures y in Map(s, f) {
      var x :| x in s && f(x) == y;
      var i :| 0 <= i < |s| && s[i] == x;
      assert Map(s, f)[i] == y;
    }
  }

  /** Two arrangements of the same elements give arrangements of the same images. */
  lemma {:induction false} MultisetMap<T(!new), U>(a: seq<T>, b: seq<T>, f: T -> U)
    requires multiset(a) == multiset(b)
    ensures multiset(Map(a, f)) == multiset(Map(b, f))
    decreases |a|
  {
    if |a| == 0 {
      assert |b| == |multiset(b)| == 0;
    } else {
      var a', x := a[..|a| - 1], a[|a| - 1];
      assert a == a' + [x];
      assert x in multiset(b);
      var k :| 0 <= k < |b| && b[k] == x;
      var b1, b2 := b[..k], b[k + 1..];
      assert b == b1 + [x] + b2;
      assert multiset(b1 + b2) == multiset(a') by {
        assert multiset(b) == multiset(b1) + multiset([x]) + multiset(b2);
        assert multiset(b1 + b2) == multiset(b1) + multiset(b2);
        assert multiset(a) == multiset(a') + multiset([x]);
        assert multiset(b1 + b2) == multiset(b) - multiset([x]);
      }
      MultisetMap(a', b1 + b2, f);
      MapAppend(a', [x], f);
      MapAppend(b1, b2, f);
      MapAppend(b1 + [x], b2, f);
      MapAppend(b1, [x], f);
    }
  }

  /** The first element kept by `Filter` is the first element of `s` that satisfies `p`. */
  lemma {:induction false} FilterFirst<T(!new)>(s: seq<T>, p: T -> bool)
    requires |Filter(s, p)| > 0
    ensures exists i :: 0 <= i < |s| && s[i] == Filter(s, p)[0] && p(s[i]) &&
              forall j :: 0 <= j < i ==> !p(s[j])
    decreases |s|
  {
    var s', y := s[..|s| - 1], s[|s| - 1];
    assert s == s' + [y];
    FilterSnoc(s', y, p);
    var f' := Filter(s', p);
    if |f'| > 0 {
      FilterFirst(s', p);
      var i :| 0 <= i < |s'| && s'[i] == f'[0] && p(s'[i]) &&
               forall j :: 0 <= j < i ==> !p(s'[j]);
      assert Filter(s, p)[0] == f'[0];
      assert s[i] == s'[i];
      assert forall j :: 0 <= j < i ==> s[j] == s'[j];
    } else {
      assert Filter(s, p) == [y] && p(y);
      forall j | 0 <= j < |s| - 1 ensures !p(s[j]) {
        assert s[j] == s'[j] && s'[j] in s';
        assert s'[j] !in f';
      }
      assert s[|s| - 1] == Filter(s, p)[0];
    }
  }

  /** Filtering keeps every selected element as often as it occurs. */
  lemma {:induction false} FilterMultiset<T(!new)>(s: seq<T>, p: T -> bool)
    ensures forall x :: multiset(Filter(s, p))[x] == if p(x) then multiset(s)[x] else 0
    decreases |s|
  {
    if |s| > 0 {
      var s', y := s[..|s| - 1], s[|s| - 1];
      assert s == s' + [y];
      FilterMultiset(s', p);
      FilterSnoc(s', y, p);
    }
  }

  /** A selector that accepts every element keeps the whole sequence. */
  lemma {:induction false} FilterAll<T(!new)>(s: seq<T>, p: T -> bool)
    requires forall x :: x in s ==> p(x)
    ensures Filter(s, p) == s
    decreases |s|
  {
    if |s| > 0 {
      var s' := s[..|s| - 1];
      assert s == s' + [s[|s| - 1]];
      assert forall x :: x in s' ==> x in s;
      FilterAll(s', p);
    }
  }

  /** A selector that accepts no element keeps nothing. */
  lemma FilterNone<T(!new)>(s: seq<T>, p: T -> bool)
    requires forall x :: x in s ==> !p(x)
    ensures Filter(s, p) == []
  {
  }

  /** Filtering depends only on which elements the selector accepts. */
  lemma {:induction false} FilterExt<T(!new)>(s: seq<T>, p: T -> bool, q: T -> bool)
    requires forall x :: p(x) == q(x)
    ensures Filter(s, p) == Filter(s, q)
    decreases |s|
  {
    if |s| > 0 {
      FilterExt(s[..|s| - 1], p, q);
    }
  }

  /** Two successive selections are one selection by the conjunction. */
  lemma {:induction false} FilterFilter<T(!new)>(s: seq<T>, p: T -> bool, q: T -> bool, pq: T -> bool)
    requires forall x :: pq(x) == (p(x) && q(x))
    ensures Filter(Filter(s, p), q) == Filter(s, pq)
    decreases |s|
  {
    if |s| > 0 {
      var s', y := s[..|s| - 1], s[|s| - 1];
      assert s == s' + [y];
      FilterFilter(s', p, q, pq);
      FilterSnoc(s', y, p);
      FilterSnoc(s', y, pq);
      if p(y) {
        FilterSnoc(Filter(s', p), y, q);
        assert Filter(s, p) == Filter(s', p) + [y];
      } else {
        assert Filter(s, p) == Filter(s', p);
        assert !pq(y);
      }
    }
  }

  /** `a` and `b` agree position by position on `p`, and `f` on `a` agrees with `g` on `b`. */
  ghost predicate PointwiseAgree<T, U>(a: seq<T>, b: seq<T>, p: T -> bool, f: T -> U, g: T -> U) {
    |a| == |b| && forall k :: 0 <= k < |a| ==> p(a[k]) == p(b[k]) && f(a[k]) == g(b[k])
  }

  lemma PointwiseAgreePrefix<T, U>(a: seq<T>, b: seq<T>, p: T -> bool, f: T -> U, g: T -> U, n: nat)
    requires PointwiseAgree(a, b, p, f, g) && n <= |a|
    ensures PointwiseAgree(a[..n], b[..n], p, f, g)
  {
  }

  /** Two sequences that agree position by position on the selector, and whose
      elements `f` and `g` map alike, give the same selected column. */
  lemma {:induction false} FilterMapSame<T(!new), U>(a: seq<T>, b: seq<T>, p: T -> bool, f: T -> U, g: T -> U)
    requires PointwiseAgree(a, b, p, f, g)
    ensures Map(Filter(a, p), f) == Map(Filter(b, p), g)
    decreases |a|
  {
    if |a| > 0 {
      var n := |a| - 1;
      var a', b' := a[..n], b[..n];
      PointwiseAgreePrefix(a, b, p, f, g, n);
      FilterMapSame(a', b', p, f, g);
      assert a == a' + [a[n]] && b == b' + [b[n]];
      FilterMapStep(a', b', a[n], b[n], p, f, g);
    }
  }

  lemma FilterMapStep<T(!new), U>(a: seq<T>, b: seq<T>, x: T, y: T, p: T -> bool, f: T -> U, g: T -> U)
    requires Map(Filter(a, p), f) == Map(Filter(b, p), g)
    requires p(x) == p(y) && f(x) == g(y)
    ensures Map(Filter(a + [x], p), f) == Map(Filter(b + [y], p), g)
  {
    FilterSnoc(a, x, p);
    FilterSnoc(b, y, p);
    if p(x) {
      MapSnoc(Filter(a, p), x, f);
      MapSnoc(Filter(b, p), y, g);
    } else {
      assert Filter(a, p) + [] == Filter(a, p);
      assert Filter(b, p) + [] == Filter(b, p);
    }
  }

  /** Maps that agree on the elements of `s` give the same column. */
  lemma MapAgree<T, U>(s: seq<T>, f: T -> U, g: T -> U)
    requires forall i :: 0 <= i < |s| ==> f(s[i]) == g(s[i])
    ensures Map(s, f) == Map(s, g)
  {
  }
}
