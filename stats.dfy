/** The reductions the engine applies to a column of one group: pandas' `mean()`,
    `median()` and `std()` (all skipping NaN), numpy's `std()`, and `round(x, 2)`.
    A square root cannot be computed exactly over the reals, so it is a parameter
    `sqrt` of the reductions that need one. */
module Stats {
  import opened Wrappers
  import opened Seqs

  /** The defined values of a column, in order: what pandas keeps with skipna. */
  function Defined(xs: seq<Option<real>>): (r: seq<real>)
    ensures |r| <= |xs|
    ensures forall x :: x in r <==> Some(x) in xs
    decreases |xs|
  {
    if |xs| == 0 then []
    else
      assert xs == xs[..|xs| - 1] + [xs[|xs| - 1]];
      Defined(xs[..|xs| - 1]) + (if xs[|xs| - 1].Some? then [xs[|xs| - 1].value] else [])
  }

  lemma DefinedSnoc(xs: seq<Option<real>>, x: Option<real>)
    ensures Defined(xs + [x]) == Defined(xs) + (if x.Some? then [x.value] else [])
  {
    assert (xs + [x])[..|xs|] == xs;
  }

  /** Division that is undefined when an operand is undefined or the divisor is zero
      (IEEE gives NaN or an infinity there). */
  function Div(a: Option<real>, b: Option<real>): (r: Option<real>)
    ensures r.Some? <==> a.Some? && b.Some? && b.value != 0.0
  {
    if a.Some? && b.Some? && b.value != 0.0 then Some(a.value / b.value) else None
  }

  /** A defined quotient times the divisor is the dividend. */
  lemma DivTimes(a: Option<real>, b: Option<real>, q: real)
    requires Div(a, b) == Some(q)
    ensures q * b.value == a.value
  {
  }

  function Mul(a: Option<real>, b: Option<real>): (r: Option<real>)
    ensures r.Some? <==> a.Some? && b.Some?
  {
    if a.Some? && b.Some? then Some(a.value * b.value) else None
  }

  function Mean(xs: seq<real>): (m: Option<real>)
    ensures m.Some? <==> |xs| > 0
  {
    if |xs| == 0 then None else Some(Sum(xs) / |xs| as real)
  }

  /** The mean times the count is the sum. */
  lemma MeanTimesCount(xs: seq<real>, m: real)
    requires Mean(xs) == Some(m)
    ensures m * (|xs| as real) == Sum(xs)
  {
  }

  predicate Sorted(t: seq<real>) {
    forall i, j :: 0 <= i < j < |t| ==> t[i] <= t[j]
  }

  function InsertSorted(x: real, t: seq<real>): seq<real>
    decreases |t|
  {
    if |t| == 0 then [x]
    else if x <= t[0] then [x] + t
    else [t[0]] + InsertSorted(x, t[1..])
  }

  lemma {:induction false} InsertSortedMultiset(x: real, t: seq<real>)
    ensures multiset(InsertSorted(x, t)) == multiset(t) + multiset{x}
    decreases |t|
  {
    if |t| > 0 {
      assert t == [t[0]] + t[1..];
      if x > t[0] {
        InsertSortedMultiset(x, t[1..]);
      }
    }
  }

  lemma {:induction false} InsertSortedSorted(x: real, t: seq<real>)
    requires Sorted(t)
    ensures Sorted(InsertSorted(x, t))
    decreases |t|
  {
    if |t| > 0 && x > t[0] {
      var t' := t[1..];
      InsertSortedSorted(x, t');
      InsertSortedMultiset(x, t');
      var u := InsertSorted(x, t');
      forall j | 0 <= j < |u| ensures t[0] <= u[j] {
        assert u[j] in multiset(t') + multiset{x};
      }
      assert InsertSorted(x, t) == [t[0]] + u;
    }
  }

  lemma InsertSortedSpec(x: real, t: seq<real>)
    requires Sorted(t)
    ensures Sorted(InsertSorted(x, t))
    ensures multiset(InsertSorted(x, t)) == multiset(t) + multiset{x}
  {
    InsertSortedMultiset(x, t);
    InsertSortedSorted(x, t);
  }

  /** The values in ascending order (insertion sort). */
  function Sort(xs: seq<real>): (t: seq<real>)
    ensures Sorted(t)
    ensures multiset(t) == multiset(xs)
    decreases |xs|
  {
    if |xs| == 0 then []
    else
      assert xs == xs[..|xs| - 1] + [xs[|xs| - 1]];
      InsertSortedSpec(xs[|xs| - 1], Sort(xs[..|xs| - 1]));
      InsertSorted(xs[|xs| - 1], Sort(xs[..|xs| - 1]))
  }

  /** The median of an ascending sequence: its middle element, or the mean of its
      two middle elements for an even count. */
  function MedianOfSorted(t: seq<real>): real
    requires |t| > 0
  {
    var n := |t|;
    if n % 2 == 1 then t[n / 2] else (t[n / 2 - 1] + t[n / 2]) / 2.0
  }

  /** pandas' `median()` over the defined values; undefined when there are none. */
  function Median(xs: seq<real>): (m: Option<real>)
    ensures m.Some? <==> |xs| > 0
  {
    if |xs| == 0 then None else Some(MedianOfSorted(Sort(xs)))
  }

  /** The median lies between the smallest and the largest value. */
  lemma MedianBounds(xs: seq<real>)
    requires |xs| > 0
    ensures exists i, j :: 0 <= i < |xs| && 0 <= j < |xs| && xs[i] <= Median(xs).value <= xs[j]
  {
    var t := Sort(xs);
    var n := |t|;
    assert |t| == |xs| by { assert |multiset(t)| == |multiset(xs)|; }
    assert t[0] in multiset(xs) && t[n - 1] in multiset(xs);
    assert t[0] <= Median(xs).value <= t[n - 1];
  }

  lemma MedianPositive(xs: seq<real>)
    requires |xs| > 0
    requires forall i :: 0 <= i < |xs| ==> xs[i] > 0.0
    ensures Median(xs).value > 0.0
  {
    MedianBounds(xs);
  }

  /** `f` preserves and reflects the order of the reals. */
  ghost predicate Monotone(f: real -> real) {
    forall a, b :: a <= b <==> f(a) <= f(b)
  }

  lemma MapCons(x: real, t: seq<real>, f: real -> real)
    ensures Map([x] + t, f) == [f(x)] + Map(t, f)
  {
    var a, b := Map([x] + t, f), [f(x)] + Map(t, f);
    forall i | 0 <= i < |a| ensures a[i] == b[i] {
      if i > 0 {
        assert ([x] + t)[i] == t[i - 1];
      }
    }
  }

  lemma MapTail(t: seq<real>, f: real -> real)
    requires |t| > 0
    ensures Map(t, f)[1..] == Map(t[1..], f)
  {
  }

  lemma MapPrefix(xs: seq<real>, f: real -> real)
    requires |xs| > 0
    ensures Map(xs, f)[..|xs| - 1] == Map(xs[..|xs| - 1], f)
  {
  }

  lemma {:induction false} InsertSortedMap(x: real, t: seq<real>, f: real -> real)
    requires Monotone(f)
    ensures InsertSorted(f(x), Map(t, f)) == Map(InsertSorted(x, t), f)
    decreases |t|
  {
    if |t| == 0 {
      assert Map([x], f) == [f(x)];
    } else {
      MapTail(t, f);
      assert f(x) <= f(t[0]) <==> x <= t[0];
      if x <= t[0] {
        MapCons(x, t, f);
      } else {
        InsertSortedMap(x, t[1..], f);
        MapCons(t[0], InsertSorted(x, t[1..]), f);
      }
    }
  }

  /** Sorting commutes with an order-preserving map. */
  lemma {:induction false} SortMap(xs: seq<real>, f: real -> real)
    requires Monotone(f)
    ensures Sort(Map(xs, f)) == Map(Sort(xs), f)
    decreases |xs|
  {
    if |xs| > 0 {
      var xs', x := xs[..|xs| - 1], xs[|xs| - 1];
      MapPrefix(xs, f);
      SortMap(xs', f);
      InsertSortedMap(x, Sort(xs'), f);
    }
  }

  function Times(k: real): real -> real {
    x => k * x
  }

  /** Every value multiplied by `k`. */
  function Scale(xs: seq<real>, k: real): (r: seq<real>)
    ensures |r| == |xs|
    ensures forall i :: 0 <= i < |xs| ==> r[i] == k * xs[i]
  {
    Map(xs, Times(k))
  }

  lemma MulMonotone(k: real, x: real, y: real)
    requires k > 0.0
    ensures x <= y <==> k * x <= k * y
  {
    if x <= y {
      assert k * y - k * x == k * (y - x);
    } else {
      assert k * x - k * y == k * (x - y);
    }
  }

  lemma TimesMonotone(k: real)
    requires k > 0.0
    ensures Monotone(Times(k))
  {
    forall a, b ensures a <= b <==> Times(k)(a) <= Times(k)(b) {
      MulMonotone(k, a, b);
    }
  }

  lemma MedianOfSortedScale(t: seq<real>, k: real, m: real)
    requires |t| > 0 && MedianOfSorted(t) == m
    ensures MedianOfSorted(Scale(t, k)) == k * m
  {
    var n := |t|;
    var u := Scale(t, k);
    if n % 2 == 1 {
      assert u[n / 2] == k * t[n / 2];
    } else {
      var a, b := t[n / 2 - 1], t[n / 2];
      assert m == (a + b) / 2.0;
      assert u[n / 2 - 1] == k * a && u[n / 2] == k * b;
      assert (k * a + k * b) / 2.0 == k * ((a + b) / 2.0);
    }
  }

  /** Sorting commutes with scaling by a positive factor. */
  lemma SortScale(xs: seq<real>, k: real)
    requires k > 0.0
    ensures Sort(Scale(xs, k)) == Scale(Sort(xs), k)
  {
    TimesMonotone(k);
    SortMap(xs, Times(k));
  }

  /** Scaling every value by a positive factor scales the median by that factor. */
  lemma MedianScale(xs: seq<real>, k: real, m: real)
    requires k > 0.0
    requires Median(xs) == Some(m)
    ensures Median(Scale(xs, k)) == Some(k * m)
  {
    var t := Sort(xs);
    assert |t| == |xs| by { assert |multiset(t)| == |multiset(xs)|; }
    assert Median(Scale(xs, k)) == Some(MedianOfSorted(Scale(t, k))) by {
      SortScale(xs, k);
    }
    MedianOfSortedScale(t, k, m);
  }

  /** The values minus `m`. */
  function Deviations(xs: seq<real>, m: real): (r: seq<real>)
    ensures |r| == |xs|
    ensures forall i :: 0 <= i < |xs| ==> r[i] == xs[i] - m
  {
    seq(|xs|, i requires 0 <= i < |xs| => xs[i] - m)
  }

  lemma {:induction false} SumDeviations(xs: seq<real>, m: real)
    ensures Sum(Deviations(xs, m)) == Sum(xs) - (|xs| as real) * m
    decreases |xs|
  {
    if |xs| > 0 {
      var xs' := xs[..|xs| - 1];
      assert Deviations(xs, m)[..|xs| - 1] == Deviations(xs', m);
      SumDeviations(xs', m);
    }
  }

  /** The deviations from the mean sum to zero. */
  lemma DeviationsFromMeanSumToZero(xs: seq<real>)
    requires |xs| > 0
    ensures Sum(Deviations(xs, Mean(xs).value)) == 0.0
  {
    var m := Mean(xs).value;
    SumDeviations(xs, m);
    MeanTimesCount(xs, m);
  }

  /** The sum of squared deviations from `m`. */
  function SquaredDeviations(xs: seq<real>, m: real): (r: real)
    ensures r >= 0.0
    decreases |xs|
  {
    if |xs| == 0 then 0.0
    else
      var d := xs[|xs| - 1] - m;
      assert d * d >= 0.0 by { if d < 0.0 { assert d * d == (-d) * (-d); } }
      SquaredDeviations(xs[..|xs| - 1], m) + d * d
  }

  /** pandas' `std()`: the sample standard deviation (one degree of freedom
      removed), undefined for fewer than two values. */
  function SampleStd(xs: seq<real>, sqrt: real -> real): (s: Option<real>)
    ensures s.Some? <==> |xs| >= 2
  {
    if |xs| < 2 then None
    else Some(sqrt(SquaredDeviations(xs, Mean(xs).value) / (|xs| - 1) as real))
  }

  /** numpy's `std()`: the population standard deviation. */
  function PopulationStd(xs: seq<real>, sqrt: real -> real): (s: Option<real>)
    ensures s.Some? <==> |xs| >= 1
  {
    if |xs| == 0 then None
    else Some(sqrt(SquaredDeviations(xs, Mean(xs).value) / |xs| as real))
  }

  /** The relative standard deviation in percent, `100 * std / mean`. */
  function Rsd(xs: seq<real>, sqrt: real -> real): (r: Option<real>)
    ensures r.Some? <==> |xs| >= 2 && Sum(xs) != 0.0
  {
    if |xs| == 0 then None
    else
      MeanTimesCount(xs, Mean(xs).value);
      Div(Mul(Some(100.0), SampleStd(xs, sqrt)), Mean(xs))
  }

  /** A defined RSD is the standard deviation as a percentage of the mean. */
  lemma RsdTimesMean(xs: seq<real>, sqrt: real -> real, r: real, mean: real, sd: real)
    requires Rsd(xs, sqrt) == Some(r) && Mean(xs) == Some(mean) && SampleStd(xs, sqrt) == Some(sd)
    ensures r * mean == 100.0 * sd
  {
    DivTimes(Some(100.0 * sd), Some(mean), r);
  }

  /** Python's `round(x, 2)` on an exact real: to the nearest multiple of 0.01,
      halves to the even multiple. */
  function Round2(x: real): (r: real)
    ensures (r * 100.0).Floor as real == r * 100.0
    ensures -0.005 <= r - x <= 0.005
  {
    var y := x * 100.0;
    var n := y.Floor;
    var f := y - n as real;
    var k := if f > 0.5 then n + 1 else if f < 0.5 then n else if n % 2 == 0 then n else n + 1;
    k as real / 100.0
  }

  function RoundOpt(x: Option<real>): (r: Option<real>)
    ensures r.Some? <==> x.Some?
  {
    if x.Some? then Some(Round2(x.value)) else None
  }

  /** `r` is `x` rounded to two decimals: both undefined, or `r` a multiple of
      0.01 within half of that of `x`. */
  predicate RoundedFrom(r: Option<real>, x: Option<real>) {
    (r.Some? <==> x.Some?) &&
    (r.Some? ==> (r.value * 100.0).Floor as real == r.value * 100.0 && -0.005 <= r.value - x.value <= 0.005)
  }

  lemma RoundOptRounds(x: Option<real>)
    ensures RoundedFrom(RoundOpt(x), x)
  {
    if x.Some? {
      var r := Round2(x.value);
      assert RoundOpt(x) == Some(r);
    }
  }

  function MulBy(k: real): Option<real> -> Option<real> {
    x => Mul(x, Some(k))
  }

  /** Every value of a column with missing values multiplied by `k`. */
  function ScaleOpt(xs: seq<Option<real>>, k: real): (r: seq<Option<real>>)
    ensures |r| == |xs|
    ensures forall i :: 0 <= i < |xs| ==> r[i] == Mul(xs[i], Some(k))
  {
    Map(xs, MulBy(k))
  }

  /** Scaling a column and then skipping its missing values is skipping them and
      then scaling. */
  lemma {:induction false} DefinedScaleOpt(xs: seq<Option<real>>, k: real)
    ensures Defined(ScaleOpt(xs, k)) == Scale(Defined(xs), k)
    decreases |xs|
  {
    if |xs| > 0 {
      var xs', x := xs[..|xs| - 1], xs[|xs| - 1];
      var y := Mul(x, Some(k));
      assert xs == xs' + [x];
      var a := ScaleOpt(xs', k);
      assert ScaleOpt(xs, k) == a + [y];
      var tx := if x.Some? then [x.value] else [];
      var ty := if y.Some? then [y.value] else [];
      assert Scale(tx, k) == ty by {
        if x.Some? {
          assert y.value == x.value * k;
          assert Scale(tx, k)[0] == k * x.value;
        }
      }
      calc {
        Defined(ScaleOpt(xs, k));
        { DefinedSnoc(a, y); }
        Defined(a) + ty;
        { DefinedScaleOpt(xs', k); }
        Scale(Defined(xs'), k) + Scale(tx, k);
        { MapAppend(Defined(xs'), tx, Times(k)); }
        Scale(Defined(xs') + tx, k);
        { DefinedSnoc(xs', x); }
        Scale(Defined(xs), k);
      }
    }
  }
}
