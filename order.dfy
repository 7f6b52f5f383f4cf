/** Orderings and the two ways the source turns a column into distinct values:
    `unique()` (first-appearance order) and `unique()` followed by `sort()`. */
module Order {
  import opened Seqs

  /** `lt` is a strict total order on `T`. */
  ghost predicate StrictTotal<T(!new)>(lt: (T, T) -> bool) {
    && (forall x :: !lt(x, x))
    && (forall x, y, z :: lt(x, y) && lt(y, z) ==> lt(x, z))
    && (forall x, y :: x != y ==> lt(x, y) || lt(y, x))
  }

  predicate Ascending<T>(s: seq<T>, lt: (T, T) -> bool) {
    forall i, j :: 0 <= i < j < |s| ==> lt(s[i], s[j])
  }

  lemma AscendingAppend<T>(a: seq<T>, b: seq<T>, lt: (T, T) -> bool)
    requires Ascending(a, lt) && Ascending(b, lt)
    requires forall x, y :: x in a && y in b ==> lt(x, y)
    ensures Ascending(a + b, lt)
  {
    forall i, j | 0 <= i < j < |a + b| ensures lt((a + b)[i], (a + b)[j]) {
      if j < |a| {
      } else if i >= |a| {
        assert (a + b)[i] == b[i - |a|] && (a + b)[j] == b[j - |a|];
      } else {
        assert (a + b)[i] in a && (a + b)[j] in b;
      }
    }
  }

  /** An ascending sequence under an irreflexive order lists each value once. */
  lemma AscendingDistinct<T>(s: seq<T>, lt: (T, T) -> bool)
    requires forall x :: !lt(x, x)
    requires Ascending(s, lt)
    ensures Distinct(s)
  {
  }

  predicate IntLess(a: int, b: int) {
    a < b
  }

  /** Python's ordering of `str` values: lexicographic by code point. */
  predicate StrLess(a: string, b: string)
    decreases |a|
  {
    if |a| == 0 then |b| > 0
    else if |b| == 0 then false
    else if a[0] != b[0] then a[0] < b[0]
    else StrLess(a[1..], b[1..])
  }

  lemma {:induction false} StrLessIrreflexive(a: string)
    ensures !StrLess(a, a)
    decreases |a|
  {
    if |a| > 0 {
      StrLessIrreflexive(a[1..]);
    }
  }

  lemma {:induction false} StrLessTransitive(a: string, b: string, c: string)
    requires StrLess(a, b) && StrLess(b, c)
    ensures StrLess(a, c)
    decreases |a|
  {
    if |a| > 0 && |b| > 0 && |c| > 0 && a[0] == b[0] && b[0] == c[0] {
      StrLessTransitive(a[1..], b[1..], c[1..]);
    }
  }

  lemma {:induction false} StrLessTotal(a: string, b: string)
    requires a != b
    ensures StrLess(a, b) || StrLess(b, a)
    decreases |a|
  {
    if |a| > 0 && |b| > 0 && a[0] == b[0] {
      assert a == [a[0]] + a[1..] && b == [b[0]] + b[1..];
      StrLessTotal(a[1..], b[1..]);
    }
  }

  lemma StrLessIsStrictTotal()
    ensures StrictTotal(StrLess)
  {
    forall a: string ensures !StrLess(a, a) {
      StrLessIrreflexive(a);
    }
    forall a: string, b: string, c: string | StrLess(a, b) && StrLess(b, c)
      ensures StrLess(a, c)
    {
      StrLessTransitive(a, b, c);
    }
    forall a: string, b: string | a != b ensures StrLess(a, b) || StrLess(b, a) {
      StrLessTotal(a, b);
    }
  }

  lemma IntLessIsStrictTotal()
    ensures StrictTotal(IntLess)
  {
  }

  /** Inserts `x` into an ascending sequence unless it is already there. */
  function InsertDistinct<T(==)>(x: T, s: seq<T>, lt: (T, T) -> bool): seq<T>
    decreases |s|
  {
    if |s| == 0 then [x]
    else if x == s[0] then s
    else if lt(x, s[0]) then [x] + s
    else [s[0]] + InsertDistinct(x, s[1..], lt)
  }

  /** The distinct values of `s` in ascending order: numpy's `unique()` and `sort()`. */
  function SortedDistinct<T(==)>(s: seq<T>, lt: (T, T) -> bool): seq<T>
    decreases |s|
  {
    if |s| == 0 then []
    else InsertDistinct(s[|s| - 1], SortedDistinct(s[..|s| - 1], lt), lt)
  }

  lemma {:induction false} InsertDistinctSpec<T(!new)>(x: T, s: seq<T>, lt: (T, T) -> bool)
    requires StrictTotal(lt) && Ascending(s, lt)
    ensures Ascending(InsertDistinct(x, s, lt), lt)
    ensures forall y :: y in InsertDistinct(x, s, lt) <==> y == x || y in s
    decreases |s|
  {
    if |s| > 0 && x != s[0] && !lt(x, s[0]) {
      assert s == [s[0]] + s[1..];
      InsertDistinctSpec(x, s[1..], lt);
      var t := InsertDistinct(x, s[1..], lt);
      assert lt(s[0], x);
      forall j | 0 <= j < |t| ensures lt(s[0], t[j]) {
        assert t[j] == x || t[j] in s[1..];
      }
    }
  }

  /** The values returned by `unique()` then `sort()` are strictly ascending and are
      exactly the values of the column. */
  lemma {:induction false} SortedDistinctSpec<T(!new)>(s: seq<T>, lt: (T, T) -> bool)
    requires StrictTotal(lt)
    ensures Ascending(SortedDistinct(s, lt), lt)
    ensures forall y :: y in SortedDistinct(s, lt) <==> y in s
    decreases |s|
  {
    if |s| > 0 {
      assert s == s[..|s| - 1] + [s[|s| - 1]];
      SortedDistinctSpec(s[..|s| - 1], lt);
      InsertDistinctSpec(s[|s| - 1], SortedDistinct(s[..|s| - 1], lt), lt);
    }
  }

  /** The distinct values of `s` in order of first appearance: pandas' `unique()`. */
  function Unique<T(==,!new)>(s: seq<T>): (u: seq<T>)
    ensures Distinct(u)
    ensures forall x :: x in u <==> x in s
    decreases |s|
  {
    if |s| == 0 then []
    else
      assert s == s[..|s| - 1] + [s[|s| - 1]];
      var u := Unique(s[..|s| - 1]);
      if s[|s| - 1] in u then u else u + [s[|s| - 1]]
  }

  /** The index of the first occurrence of `x` in `s`. */
  function IndexOf<T(==)>(s: seq<T>, x: T): (k: nat)
    requires x in s
    ensures k < |s| && s[k] == x
    ensures forall i :: 0 <= i < k ==> s[i] != x
    decreases |s|
  {
    if s[0] == x then 0 else 1 + IndexOf(s[1..], x)
  }

  lemma IndexOfSnoc<T>(s: seq<T>, y: T, x: T)
    requires x in s + [y]
    ensures IndexOf(s + [y], x) == if x in s then IndexOf(s, x) else |s|
  {
    var k := IndexOf(s + [y], x);
    if x in s {
      var k' := IndexOf(s, x);
      assert (s + [y])[k'] == x;
    }
  }

  /** In a sequence without repetitions, an element is found at its own position. */
  lemma IndexOfDistinct<T>(s: seq<T>, k: nat)
    requires Distinct(s) && k < |s|
    ensures IndexOf(s, s[k]) == k
  {
  }

  /** `unique()` lists the values in the order in which they first occur. */
  lemma {:induction false} UniqueFirstAppearance<T(!new)>(s: seq<T>)
    ensures forall i, j :: 0 <= i < j < |Unique(s)| ==>
              IndexOf(s, Unique(s)[i]) < IndexOf(s, Unique(s)[j])
    decreases |s|
  {
    if |s| > 0 {
      var s', y := s[..|s| - 1], s[|s| - 1];
      assert s == s' + [y];
      UniqueFirstAppearance(s');
      var u', u := Unique(s'), Unique(s);
      forall i, j | 0 <= i < j < |u| ensures IndexOf(s, u[i]) < IndexOf(s, u[j]) {
        assert u[i] in s' by { assert u[i] == u'[i]; }
        IndexOfSnoc(s', y, u[i]);
        IndexOfSnoc(s', y, u[j]);
        if j < |u'| {
          assert u[i] == u'[i] && u[j] == u'[j];
        }
      }
    }
  }
}
