/** The quality-control calculations of mzQuality on a measurement table: the
    blank effect per batch and compound, the QC-median correction of the area
    ratios, the relative standard deviation of the QC samples, and the
    retention-time shifts. All of them work on the rows with a finite area. */
module QcCalc {
  import opened Wrappers
  import opened Seqs
  import opened Order
  import opened Stats
  import opened Measurements
  import opened Grids

  /** The defined areas of some rows, in row order. */
  function Areas(rows: seq<Row>): seq<real> {
    Defined(Map(rows, AreaOf))
  }

  /** The defined area ratios of some rows, in row order. */
  function Ratios(rows: seq<Row>): seq<real> {
    Defined(Map(rows, RatioOfRow))
  }

  // ---------------------------------------------------------------------------
  // Blank effect

  /** One row of the blank-effect table. */
  datatype BlankEffectRow = BlankEffectRow(compound: string, batch: int, be: Option<real>)

  /** The rows of compound `c` in batch `b` whose sample type is `t`, selected as
      the engine does: first the batch, then the compound, then the type. */
  function TypedRows(ms: seq<Row>, b: int, c: string, t: string): seq<Row> {
    Filter(Filter(Filter(ms, KeyIs(BatchOf, b)), KeyIs(CompoundOf, c)), KeyIs(TypeOf, t))
  }

  /** The blank effect of compound `c` in batch `b`: the mean blank area as a
      percentage of the mean sample area; undefined when there is no blank, no
      sample, or the mean sample area is zero. */
  function BlankEffectOf(ms: seq<Row>, b: int, c: string): (be: Option<real>)
    ensures be.Some? <==>
              |Areas(TypedRows(ms, b, c, "blank"))| > 0 && |Areas(TypedRows(ms, b, c, "sample"))| > 0 &&
              Mean(Areas(TypedRows(ms, b, c, "sample"))).value != 0.0
  {
    Mul(Some(100.0), Div(Mean(Areas(TypedRows(ms, b, c, "blank"))), Mean(Areas(TypedRows(ms, b, c, "sample")))))
  }

  /** A defined blank effect is the percentage the mean blank area is of the mean
      sample area. */
  lemma BlankEffectPercent(ms: seq<Row>, b: int, c: string, blank: real, sample: real)
    requires Mean(Areas(TypedRows(ms, b, c, "blank"))) == Some(blank)
    requires Mean(Areas(TypedRows(ms, b, c, "sample"))) == Some(sample)
    requires sample != 0.0
    ensures BlankEffectOf(ms, b, c).Some?
    ensures BlankEffectOf(ms, b, c).value * sample == 100.0 * blank
  {
    var q := blank / sample;
    assert BlankEffectOf(ms, b, c) == Some(100.0 * q);
    DivTimes(Some(blank), Some(sample), q);
    assert (100.0 * q) * sample == 100.0 * (q * sample);
  }

  function BlankEffectCell(ms: seq<Row>): (int, string) -> BlankEffectRow {
    (b: int, c: string) => BlankEffectRow(c, b, BlankEffectOf(ms, b, c))
  }

  /** `blank_effect`: for every batch and every compound of the finite-area rows. */
  function BlankEffectTable(rows: seq<Row>): seq<BlankEffectRow> {
    Grid(GetBatches(rows), GetCompounds(rows), BlankEffectCell(GetMeasurements(rows, true)))
  }

  /** `blank_effect` has one row per batch and compound. */
  lemma BlankEffectTableSize(rows: seq<Row>)
    ensures |BlankEffectTable(rows)| == |GetBatches(rows)| * |GetCompounds(rows)|
  {
    GridLayout(GetBatches(rows), GetCompounds(rows), BlankEffectCell(GetMeasurements(rows, true)));
  }

  /** `blank_effect` is batch-major: row `i * |compounds| + j` is the blank effect
      of batch `i` and compound `j`. */
  lemma BlankEffectTableCell(rows: seq<Row>, i: nat, j: nat, k: nat)
    requires i < |GetBatches(rows)| && j < |GetCompounds(rows)|
    requires k == i * |GetCompounds(rows)| + j
    ensures k < |BlankEffectTable(rows)|
    ensures BlankEffectTable(rows)[k] ==
              BlankEffectRow(GetCompounds(rows)[j], GetBatches(rows)[i],
                             BlankEffectOf(GetMeasurements(rows, true), GetBatches(rows)[i], GetCompounds(rows)[j]))
  {
    var bs, cs := GetBatches(rows), GetCompounds(rows);
    var cell := BlankEffectCell(GetMeasurements(rows, true));
    GridStep(bs, cs, cell, i, j, k);
  }

  /** The blank-effect loops of `blank_effect` over given batches and compounds:
      one row per pair, batch by batch, compound by compound. */
  method BlankEffectsOf(measurements: seq<Row>, batches: seq<int>, compounds: seq<string>)
    returns (r: seq<BlankEffectRow>)
    ensures r == Grid(batches, compounds, BlankEffectCell(measurements))
  {
    r := [];
    var bi := 0;
    while bi < |batches|
      invariant 0 <= bi <= |batches|
      invariant r == Grid(batches[..bi], compounds, BlankEffectCell(measurements))
    {
      var batchEffects := BatchBlankEffectsOf(measurements, batches[bi], compounds);
      GridSnoc(batches, compounds, BlankEffectCell(measurements), bi);
      r := r + batchEffects;
      bi := bi + 1;
    }
    assert batches[..bi] == batches;
  }

  /** The compound loop of `blank_effect` for one batch. */
  method BatchBlankEffectsOf(measurements: seq<Row>, batch: int, compounds: seq<string>)
    returns (r: seq<BlankEffectRow>)
    ensures r == GridRow(batch, compounds, BlankEffectCell(measurements))
  {
    var batchIndex := Filter(measurements, KeyIs(BatchOf, batch));
    r := [];
    var ci := 0;
    while ci < |compounds|
      invariant 0 <= ci <= |compounds|
      invariant r == GridRow(batch, compounds[..ci], BlankEffectCell(measurements))
    {
      var compound := compounds[ci];
      var compoundIndex := Filter(batchIndex, KeyIs(CompoundOf, compound));
      var samples := Filter(compoundIndex, KeyIs(TypeOf, "sample"));
      var blanks := Filter(compoundIndex, KeyIs(TypeOf, "blank"));
      var be := Mul(Some(100.0), Div(Mean(Areas(blanks)), Mean(Areas(samples))));
      assert be == BlankEffectOf(measurements, batch, compound);
      GridRowSnoc(batch, compounds, BlankEffectCell(measurements), ci);
      r := r + [BlankEffectRow(compound, batch, be)];
      ci := ci + 1;
    }
    assert compounds[..ci] == compounds;
  }

  // ---------------------------------------------------------------------------
  // QC-median correction

  /** The QC rows of compound `c` in batch `b`. */
  function QcOf(c: string, b: int): (p: Row -> bool)
    ensures forall x :: p(x) <==> x.batch == b && x.compound == c && x.sampleType == "qc"
  {
    (x: Row) => x.batch == b && x.compound == c && x.sampleType == "qc"
  }

  /** The QC rows of compound `c`, in any batch, with a positive ratio. */
  function PositiveQc(c: string): (p: Row -> bool)
    ensures forall x :: p(x) <==> x.compound == c && x.sampleType == "qc" && x.ratio.Some? && x.ratio.value > 0.0
  {
    (x: Row) => x.compound == c && x.sampleType == "qc" && x.ratio.Some? && x.ratio.value > 0.0
  }

  predicate HasQc(ms: seq<Row>) {
    |Filter(ms, KeyIs(TypeOf, "qc"))| > 0
  }

  /** The median ratio of the positive QC rows of compound `c` over all batches. */
  function GlobalQcMedian(ms: seq<Row>, c: string): Option<real> {
    Median(Ratios(Filter(ms, PositiveQc(c))))
  }

  /** The median ratio of the QC rows of compound `c` in batch `b`. */
  function BatchQcMedian(ms: seq<Row>, c: string, b: int): Option<real> {
    Median(Ratios(Filter(ms, QcOf(c, b))))
  }

  /** The correction factor of compound `c` in batch `b`: the inter-batch QC median
      over the batch QC median. */
  function Factor(ms: seq<Row>, c: string, b: int): (f: Option<real>)
    ensures f.Some? <==>
              |Ratios(Filter(ms, PositiveQc(c)))| > 0 && |Ratios(Filter(ms, QcOf(c, b)))| > 0 &&
              BatchQcMedian(ms, c, b).value != 0.0
  {
    Div(GlobalQcMedian(ms, c), BatchQcMedian(ms, c, b))
  }

  /** A row with `inter_median_qc_corrected` set to its ratio times `factor`. */
  function Levelled(x: Row, factor: Option<real>): Row {
    x.(corrected := Mul(x.ratio, factor))
  }

  /** The factor of every compound and batch. */
  function FactorOf(ms: seq<Row>): (string, int) -> Option<real> {
    (c: string, b: int) => Factor(ms, c, b)
  }

  /** A row corrected by the factor of its compound and batch. */
  function CorrectRow(ms: seq<Row>, x: Row): Row {
    Levelled(x, Factor(ms, x.compound, x.batch))
  }

  /** The finite-area rows with the corrected column filled in. */
  function CorrectedRows(ms: seq<Row>): (r: seq<Row>)
    ensures |r| == |ms|
  {
    seq(|ms|, k requires 0 <= k < |ms| => CorrectRow(ms, ms[k]))
  }

  /** `qc_correction`'s result: no columns at all when there is no QC row, and
      otherwise the finite-area rows with the corrected column. */
  function QcCorrectionOf(rows: seq<Row>): (f: Frame)
    ensures !HasQc(GetMeasurements(rows, true)) ==> f == Frame([], false)
    ensures HasQc(GetMeasurements(rows, true)) ==>
              f.hasCorrected && |f.rows| == |GetMeasurements(rows, true)| && |f.rows| > 0
    ensures forall k :: 0 <= k < |f.rows| ==>
              f.rows[k].(corrected := GetMeasurements(rows, true)[k].corrected) == GetMeasurements(rows, true)[k]
  {
    var ms := GetMeasurements(rows, true);
    if HasQc(ms) then Frame(CorrectedRows(ms), true) else Frame([], false)
  }

  /** `a` differs from `b` in the corrected column at most. */
  predicate SameButCorrected(a: seq<Row>, b: seq<Row>) {
    |a| == |b| && forall k :: 0 <= k < |a| ==> a[k].(corrected := b[k].corrected) == b[k]
  }

  /** The medians do not read the corrected column, so correcting some rows leaves
      them as they were. */
  lemma MediansUnchanged(rows: seq<Row>, ms: seq<Row>, c: string, b: int)
    requires SameButCorrected(rows, ms)
    ensures Median(Ratios(Filter(rows, PositiveQc(c)))) == GlobalQcMedian(ms, c)
    ensures Median(Ratios(Filter(rows, QcOf(c, b)))) == BatchQcMedian(ms, c, b)
  {
    forall k | 0 <= k < |rows|
      ensures rows[k].ratio == ms[k].ratio && rows[k].batch == ms[k].batch
      ensures rows[k].compound == ms[k].compound && rows[k].sampleType == ms[k].sampleType
    {
      assert rows[k].(corrected := ms[k].corrected) == ms[k];
    }
    FilterMapSame(rows, ms, PositiveQc(c), RatioOfRow, RatioOfRow);
    FilterMapSame(rows, ms, QcOf(c, b), RatioOfRow, RatioOfRow);
  }

  /** `.ix[batch & compound, 'inter_median_qc_corrected'] = ratio * factor`. */
  function ScaleGroup(rows: seq<Row>, c: string, b: int, factor: Option<real>): (r: seq<Row>)
    ensures |r| == |rows|
  {
    seq(|rows|, k requires 0 <= k < |rows| =>
      if rows[k].batch == b && rows[k].compound == c then Levelled(rows[k], factor) else rows[k])
  }

  /** The rows of the compounds `cs`, and those of compound `c` in the batches
      `bs`, are corrected by the factors `fs`; every other row is as it was. */
  predicate CorrectedFor(rows: seq<Row>, ms: seq<Row>, fs: (string, int) -> Option<real>, cs: seq<string>,
                         c: string, bs: seq<int>) {
    |rows| == |ms| &&
    forall k :: 0 <= k < |ms| ==>
      rows[k] == if ms[k].compound in cs || (ms[k].compound == c && ms[k].batch in bs)
                 then Levelled(ms[k], fs(ms[k].compound, ms[k].batch)) else ms[k]
  }

  lemma CorrectedForSame(rows: seq<Row>, ms: seq<Row>, fs: (string, int) -> Option<real>, cs: seq<string>,
                         c: string, bs: seq<int>)
    requires CorrectedFor(rows, ms, fs, cs, c, bs)
    ensures SameButCorrected(rows, ms)
  {
  }

  /** Correcting one more group, with that group's factor. */
  lemma CorrectedForAppend(rows: seq<Row>, ms: seq<Row>, fs: (string, int) -> Option<real>, cs: seq<string>,
                           c: string, bs: seq<int>, b: int)
    requires CorrectedFor(rows, ms, fs, cs, c, bs)
    ensures CorrectedFor(ScaleGroup(rows, c, b, fs(c, b)), ms, fs, cs, c, bs + [b])
  {
    var r := ScaleGroup(rows, c, b, fs(c, b));
    forall k | 0 <= k < |ms|
      ensures r[k] == if ms[k].compound in cs || (ms[k].compound == c && ms[k].batch in bs + [b])
                      then Levelled(ms[k], fs(ms[k].compound, ms[k].batch)) else ms[k]
    {
      assert ms[k].batch in bs + [b] <==> ms[k].batch in bs || ms[k].batch == b;
    }
  }

  /** Once every batch of compound `c` is corrected, so is compound `c`. */
  lemma CorrectedForCompound(rows: seq<Row>, ms: seq<Row>, fs: (string, int) -> Option<real>, cs: seq<string>,
                             c: string, bs: seq<int>)
    requires CorrectedFor(rows, ms, fs, cs, c, bs)
    requires forall k :: 0 <= k < |ms| ==> ms[k].batch in bs
    ensures CorrectedFor(rows, ms, fs, cs + [c], "", [])
  {
  }

  /** Once every compound is corrected by its own factors, every row is. */
  lemma CorrectedForAll(rows: seq<Row>, ms: seq<Row>, cs: seq<string>)
    requires CorrectedFor(rows, ms, FactorOf(ms), cs, "", [])
    requires forall k :: 0 <= k < |ms| ==> ms[k].compound in cs
    ensures rows == CorrectedRows(ms)
  {
  }

  lemma DoneSnoc(batches: seq<int>, done: seq<int>, i: nat)
    requires i < |batches|
    requires forall j :: 0 <= j < i ==> batches[j] in done
    ensures forall j :: 0 <= j < i + 1 ==> batches[j] in done + [batches[i]]
  {
  }

  lemma EveryBatchDone(ms: seq<Row>, batches: seq<int>, done: seq<int>)
    requires forall k :: 0 <= k < |ms| ==> ms[k].batch in batches
    requires forall j :: 0 <= j < |batches| ==> batches[j] in done
    ensures forall k :: 0 <= k < |ms| ==> ms[k].batch in done
  {
    forall k | 0 <= k < |ms| ensures ms[k].batch in done {
      var j :| 0 <= j < |batches| && batches[j] == ms[k].batch;
    }
  }

  /** Every value of a column occurs in its list of unique values. */
  lemma UniqueCovers<T(!new)>(ms: seq<Row>, f: Row -> T)
    ensures forall k :: 0 <= k < |ms| ==> f(ms[k]) in Unique(Map(ms, f))
  {
    forall k | 0 <= k < |ms| ensures f(ms[k]) in Unique(Map(ms, f)) {
      assert Map(ms, f)[k] == f(ms[k]);
    }
  }

  /** The inner loop of `qc_correction` for one compound: batch by batch, in the
      order `batches` lists them, each group against the medians of the rows as
      they are at that point. Any list that names every batch will do. */
  method CorrectCompound(ms: seq<Row>, rows: seq<Row>, cs: seq<string>, compound: string, batches: seq<int>)
    returns (measurements: seq<Row>)
    requires CorrectedFor(rows, ms, FactorOf(ms), cs, "", [])
    requires forall k :: 0 <= k < |ms| ==> ms[k].batch in batches
    ensures CorrectedFor(measurements, ms, FactorOf(ms), cs + [compound], "", [])
  {
    measurements := rows;
    CorrectedForSame(measurements, ms, FactorOf(ms), cs, "", []);
    MediansUnchanged(measurements, ms, compound, 0);
    var g := Median(Ratios(Filter(measurements, PositiveQc(compound))));
    var bi := 0;
    ghost var done: seq<int> := [];
    while bi < |batches|
      invariant 0 <= bi <= |batches|
      invariant CorrectedFor(measurements, ms, FactorOf(ms), cs, compound, done)
      invariant forall j :: 0 <= j < bi ==> batches[j] in done
    {
      var batch := batches[bi];
      CorrectedForSame(measurements, ms, FactorOf(ms), cs, compound, done);
      MediansUnchanged(measurements, ms, compound, batch);
      var med := Median(Ratios(Filter(measurements, QcOf(compound, batch))));
      var factor := Div(g, med);
      assert factor == FactorOf(ms)(compound, batch);
      CorrectedForAppend(measurements, ms, FactorOf(ms), cs, compound, done, batch);
      measurements := ScaleGroup(measurements, compound, batch, factor);
      DoneSnoc(batches, done, bi);
      done := done + [batch];
      bi := bi + 1;
    }
    EveryBatchDone(ms, batches, done);
    CorrectedForCompound(measurements, ms, FactorOf(ms), cs, compound, done);
  }

  /** The correction loops of `qc_correction`, compound by compound in the order
      `compounds` lists them and batch by batch in the order `batches` lists them.
      Whatever the two orders, as long as they name every compound and every
      batch, the result is the same table. */
  method CorrectInOrder(ms: seq<Row>, compounds: seq<string>, batches: seq<int>)
    returns (measurements: seq<Row>)
    requires forall k :: 0 <= k < |ms| ==> ms[k].compound in compounds
    requires forall k :: 0 <= k < |ms| ==> ms[k].batch in batches
    ensures measurements == CorrectedRows(ms)
  {
    measurements := ms;
    var ci := 0;
    while ci < |compounds|
      invariant 0 <= ci <= |compounds|
      invariant CorrectedFor(measurements, ms, FactorOf(ms), compounds[..ci], "", [])
    {
      measurements := CorrectCompound(ms, measurements, compounds[..ci], compounds[ci], batches);
      assert compounds[..ci + 1] == compounds[..ci] + [compounds[ci]];
      ci := ci + 1;
    }
    assert compounds[..ci] == compounds;
    CorrectedForAll(measurements, ms, compounds[..ci]);
  }

  /** `qc_correction`'s loops in the code's own order: the compounds and the batches
      in order of first appearance. The code takes the batch list afresh for every
      compound from the table it is correcting; the correction leaves the batch
      column alone, so that list is the same every time. */
  method CorrectAll(ms: seq<Row>) returns (measurements: seq<Row>)
    ensures measurements == CorrectedRows(ms)
  {
    var compounds := Unique(Map(ms, CompoundOf));
    var batches := Unique(Map(ms, BatchOf));
    UniqueCovers(ms, CompoundOf);
    UniqueCovers(ms, BatchOf);
    measurements := CorrectInOrder(ms, compounds, batches);
  }

  /** The corrected ratio of a row against the factor of its own group. */
  function CorrectedRatio(ms: seq<Row>): Row -> Option<real> {
    (x: Row) => Mul(x.ratio, Factor(ms, x.compound, x.batch))
  }

  function ScaledRatio(k: real): Row -> Option<real> {
    (x: Row) => Mul(x.ratio, Some(k))
  }

  /** The inter-batch QC median is a median of positive ratios. */
  lemma GlobalQcMedianPositive(ms: seq<Row>, c: string)
    requires GlobalQcMedian(ms, c).Some?
    ensures GlobalQcMedian(ms, c).value > 0.0
  {
    var pos := Filter(ms, PositiveQc(c));
    forall i | 0 <= i < |Ratios(pos)| ensures Ratios(pos)[i] > 0.0 {
      var v := Ratios(pos)[i];
      assert Some(v) in Map(pos, RatioOfRow);
      InMap(pos, RatioOfRow);
      var x :| x in pos && RatioOfRow(x) == Some(v);
    }
    MedianPositive(Ratios(pos));
  }

  /** Selecting rows commutes with the correction, which keeps the selection's columns. */
  lemma CorrectedSelection(ms: seq<Row>, c: string, b: int)
    ensures Map(Filter(CorrectedRows(ms), QcOf(c, b)), CorrectedOf) == Map(Filter(ms, QcOf(c, b)), CorrectedRatio(ms))
  {
    var r := CorrectedRows(ms);
    forall k | 0 <= k < |ms|
      ensures QcOf(c, b)(r[k]) == QcOf(c, b)(ms[k])
      ensures CorrectedOf(r[k]) == CorrectedRatio(ms)(ms[k])
    {
      assert r[k] == CorrectRow(ms, ms[k]);
    }
    FilterMapSame(r, ms, QcOf(c, b), CorrectedOf, CorrectedRatio(ms));
  }

  /** Every row of a group is corrected by the group's factor. */
  lemma GroupFactor(ms: seq<Row>, c: string, b: int, k: real)
    requires Factor(ms, c, b) == Some(k)
    ensures Map(Filter(ms, QcOf(c, b)), CorrectedRatio(ms)) == Map(Filter(ms, QcOf(c, b)), ScaledRatio(k))
  {
    var group := Filter(ms, QcOf(c, b));
    forall i | 0 <= i < |group| ensures CorrectedRatio(ms)(group[i]) == ScaledRatio(k)(group[i]) {
      assert group[i] in group;
    }
    MapAgree(group, CorrectedRatio(ms), ScaledRatio(k));
  }

  lemma ScaledColumn(group: seq<Row>, k: real)
    ensures Defined(Map(group, ScaledRatio(k))) == Scale(Ratios(group), k)
  {
    assert Map(group, ScaledRatio(k)) == ScaleOpt(Map(group, RatioOfRow), k);
    DefinedScaleOpt(Map(group, RatioOfRow), k);
  }

  /** Within one group the corrected column is the ratio column times the group's
      factor. */
  lemma CorrectedQcColumn(ms: seq<Row>, c: string, b: int, k: real)
    requires Factor(ms, c, b) == Some(k)
    ensures Defined(Map(Filter(CorrectedRows(ms), QcOf(c, b)), CorrectedOf)) == Scale(Ratios(Filter(ms, QcOf(c, b))), k)
  {
    var group := Filter(ms, QcOf(c, b));
    calc {
      Defined(Map(Filter(CorrectedRows(ms), QcOf(c, b)), CorrectedOf));
      { CorrectedSelection(ms, c, b); }
      Defined(Map(group, CorrectedRatio(ms)));
      { GroupFactor(ms, c, b, k); }
      Defined(Map(group, ScaledRatio(k)));
      { ScaledColumn(group, k); }
      Scale(Ratios(group), k);
    }
  }

  /** The factor that scales `m` onto `g`. */
  lemma LevellingFactor(g: real, m: real) returns (k: real)
    requires g > 0.0 && m > 0.0
    ensures k > 0.0 && k * m == g
  {
    k := g / m;
  }

  /** After the correction, the median corrected value of the QC rows of every
      batch whose QC median is positive is the inter-batch QC median: the batches
      are levelled onto one another. */
  lemma CorrectedQcMedian(ms: seq<Row>, c: string, b: int, g: real, m: real)
    requires GlobalQcMedian(ms, c) == Some(g)
    requires BatchQcMedian(ms, c, b) == Some(m) && m > 0.0
    ensures Median(Defined(Map(Filter(CorrectedRows(ms), QcOf(c, b)), CorrectedOf))) == Some(g)
  {
    GlobalQcMedianPositive(ms, c);
    var k := LevellingFactor(g, m);
    FactorIsLevelling(ms, c, b, g, m, k);
    CorrectedMedianScaled(ms, c, b, m, k);
  }

  lemma FactorIsLevelling(ms: seq<Row>, c: string, b: int, g: real, m: real, k: real)
    requires GlobalQcMedian(ms, c) == Some(g)
    requires BatchQcMedian(ms, c, b) == Some(m) && m != 0.0
    requires k * m == g
    ensures Factor(ms, c, b) == Some(k)
  {
    QuotientOf(g, m, k);
  }

  lemma QuotientOf(g: real, m: real, k: real)
    requires m != 0.0 && k * m == g
    ensures g / m == k
  {
  }

  lemma CorrectedMedianScaled(ms: seq<Row>, c: string, b: int, m: real, k: real)
    requires BatchQcMedian(ms, c, b) == Some(m) && k > 0.0
    requires Factor(ms, c, b) == Some(k)
    ensures Median(Defined(Map(Filter(CorrectedRows(ms), QcOf(c, b)), CorrectedOf))) == Some(k * m)
  {
    CorrectedQcColumn(ms, c, b, k);
    MedianScale(Ratios(Filter(ms, QcOf(c, b))), k, m);
  }

  // ---------------------------------------------------------------------------
  // Relative standard deviation of the QC samples

  /** One row of the RSD table of the QC samples. */
  datatype RsdRow = RsdRow(compound: string, batch: int, rsdNc: Option<real>, rsdIsCorrected: Option<real>,
                           rsdInterMedianQcCorrected: Option<real>)

  /** A table, or the column whose absence raised a `KeyError`. */
  datatype Outcome<T> = Ok(value: T) | KeyError(column: string)

  /** The defined values of the corrected column of some rows, in row order. */
  function CorrectedValues(rows: seq<Row>): seq<real> {
    Defined(Map(rows, CorrectedOf))
  }

  /** The RSDs of the QC rows of compound `c` in batch `b`: of the areas as they
      are, and of the ratios and the corrected values rounded to two decimals. */
  function RsdRowOf(ms: seq<Row>, c: string, b: int, sqrt: real -> real): (r: RsdRow)
    ensures r.compound == c && r.batch == b
  {
    var group := Filter(ms, QcOf(c, b));
    RsdRow(c, b, Rsd(Areas(group), sqrt), RoundOpt(Rsd(Ratios(group), sqrt)),
           RoundOpt(Rsd(CorrectedValues(group), sqrt)))
  }

  /** The area RSD is exact; the other two are the RSDs of the ratios and of the
      corrected values rounded to two decimals. */
  lemma RsdRowRounding(ms: seq<Row>, c: string, b: int, sqrt: real -> real)
    ensures RsdRowOf(ms, c, b, sqrt).rsdNc == Rsd(Areas(Filter(ms, QcOf(c, b))), sqrt)
    ensures RoundedFrom(RsdRowOf(ms, c, b, sqrt).rsdIsCorrected, Rsd(Ratios(Filter(ms, QcOf(c, b))), sqrt))
    ensures RoundedFrom(RsdRowOf(ms, c, b, sqrt).rsdInterMedianQcCorrected,
                        Rsd(CorrectedValues(Filter(ms, QcOf(c, b))), sqrt))
  {
    var group := Filter(ms, QcOf(c, b));
    RoundOptRounds(Rsd(Ratios(group), sqrt));
    RoundOptRounds(Rsd(CorrectedValues(group), sqrt));
  }

  /** A batch with a single QC row of a compound has no RSD at all: the sample
      standard deviation of one value is undefined. */
  lemma SingleQcHasNoRsd(ms: seq<Row>, c: string, b: int, sqrt: real -> real)
    requires |Filter(ms, QcOf(c, b))| == 1
    ensures RsdRowOf(ms, c, b, sqrt).rsdNc.None?
    ensures RsdRowOf(ms, c, b, sqrt).rsdIsCorrected.None?
    ensures RsdRowOf(ms, c, b, sqrt).rsdInterMedianQcCorrected.None?
  {
  }

  /** The RSD row of compound `c` and batch `b`, when the batch has a QC row of
      the compound. */
  function RsdCell(ms: seq<Row>, sqrt: real -> real): (string, int) -> seq<RsdRow> {
    (c: string, b: int) => if |Filter(ms, QcOf(c, b))| >= 1 then [RsdRowOf(ms, c, b, sqrt)] else []
  }

  /** `rsdqc`: no columns when the finite-area rows hold no QC row; a `KeyError`
      when they do but the table has no corrected column; otherwise one row per
      compound and batch with a QC row, compound by compound. */
  function RsdQcTable(rows: seq<Row>, hasCorrected: bool, sqrt: real -> real): Outcome<seq<RsdRow>> {
    var ms := GetMeasurements(rows, true);
    if !HasQc(ms) then Ok([])
    else if !hasCorrected then KeyError("inter_median_qc_corrected")
    else Ok(Blocks(GetCompounds(rows), GetBatches(rows), RsdCell(ms, sqrt)))
  }

  function RsdCompoundOf(r: RsdRow): string { r.compound }

  function RsdBatchOf(r: RsdRow): int { r.batch }

  /** Compound first, then batch, both strictly. */
  predicate RsdKeyLess(x: RsdRow, y: RsdRow) {
    StrLess(x.compound, y.compound) || (x.compound == y.compound && x.batch < y.batch)
  }

  /** The rows of the RSD table are exactly the RSD rows of the compounds and
      batches of `cs` and `bs` that have a QC row. */
  lemma RsdRowsExact(ms: seq<Row>, cs: seq<string>, bs: seq<int>, sqrt: real -> real)
    ensures forall r :: r in Blocks(cs, bs, RsdCell(ms, sqrt)) ==>
              r == RsdRowOf(ms, r.compound, r.batch, sqrt) && |Filter(ms, QcOf(r.compound, r.batch))| >= 1
    ensures forall c, b :: c in cs && b in bs && |Filter(ms, QcOf(c, b))| >= 1 ==>
              RsdRowOf(ms, c, b, sqrt) in Blocks(cs, bs, RsdCell(ms, sqrt))
  {
    var present := (c: string, b: int) => |Filter(ms, QcOf(c, b))| >= 1;
    var row := (c: string, b: int) => RsdRowOf(ms, c, b, sqrt);
    OptionalCells(cs, bs, RsdCell(ms, sqrt), present, row);
    forall r | r in Blocks(cs, bs, RsdCell(ms, sqrt))
      ensures r == RsdRowOf(ms, r.compound, r.batch, sqrt) && |Filter(ms, QcOf(r.compound, r.batch))| >= 1
    {
      var c, b :| c in cs && b in bs && present(c, b) && r == row(c, b);
    }
    forall c, b | c in cs && b in bs && |Filter(ms, QcOf(c, b))| >= 1
      ensures RsdRowOf(ms, c, b, sqrt) in Blocks(cs, bs, RsdCell(ms, sqrt))
    {
      assert present(c, b) && row(c, b) == RsdRowOf(ms, c, b, sqrt);
    }
  }

  /** The RSD rows come compound by compound and, within a compound, batch by
      batch, at most one per compound and batch. */
  lemma RsdRowsOrdered(ms: seq<Row>, cs: seq<string>, bs: seq<int>, sqrt: real -> real)
    requires Ascending(cs, StrLess) && Ascending(bs, IntLess)
    ensures Ascending(Blocks(cs, bs, RsdCell(ms, sqrt)), RsdKeyLess)
  {
    var present := (c: string, b: int) => |Filter(ms, QcOf(c, b))| >= 1;
    var row := (c: string, b: int) => RsdRowOf(ms, c, b, sqrt);
    OptionalCellsKeyed(RsdCell(ms, sqrt), present, row, RsdKeyLess, RsdCompoundOf, RsdBatchOf);
    assert CompoundMajor(RsdKeyLess, RsdCompoundOf, RsdBatchOf);
    BlocksAscending(cs, bs, RsdCell(ms, sqrt), RsdKeyLess, RsdCompoundOf, RsdBatchOf);
  }

  /** Every QC row of the finite-area rows has its RSD row in the table. */
  lemma RsdQcTableComplete(rows: seq<Row>, sqrt: real -> real, x: Row)
    requires x in GetMeasurements(rows, true) && x.sampleType == "qc"
    ensures RsdRowOf(GetMeasurements(rows, true), x.compound, x.batch, sqrt) in
              Blocks(GetCompounds(rows), GetBatches(rows), RsdCell(GetMeasurements(rows, true), sqrt))
  {
    var ms := GetMeasurements(rows, true);
    assert x in rows && x.area.Some?;
    assert x.compound in GetCompounds(rows) && x.batch in GetBatches(rows);
    assert x in Filter(ms, QcOf(x.compound, x.batch));
    RsdRowsExact(ms, GetCompounds(rows), GetBatches(rows), sqrt);
  }

  /** With a QC row there is at least one RSD row, so without the corrected column
      `rsdqc` raises. */
  lemma RsdQcTableWithQc(rows: seq<Row>, hasCorrected: bool, sqrt: real -> real)
    requires HasQc(GetMeasurements(rows, true))
    ensures var table := Blocks(GetCompounds(rows), GetBatches(rows), RsdCell(GetMeasurements(rows, true), sqrt));
            table != [] &&
            RsdQcTable(rows, hasCorrected, sqrt) == if hasCorrected then Ok(table) else KeyError("inter_median_qc_corrected")
  {
    var ms := GetMeasurements(rows, true);
    var x := Filter(ms, KeyIs(TypeOf, "qc"))[0];
    assert x in Filter(ms, KeyIs(TypeOf, "qc"));
    RsdQcTableComplete(rows, sqrt, x);
  }

  /** The table of `rsdqc` when it is one: exactly the RSD rows of the compounds
      and batches with a QC row, ordered by compound and then batch. */
  lemma RsdQcTableSpec(rows: seq<Row>, hasCorrected: bool, sqrt: real -> real)
    requires RsdQcTable(rows, hasCorrected, sqrt).Ok?
    ensures forall r :: r in RsdQcTable(rows, hasCorrected, sqrt).value ==>
              r == RsdRowOf(GetMeasurements(rows, true), r.compound, r.batch, sqrt) &&
              |Filter(GetMeasurements(rows, true), QcOf(r.compound, r.batch))| >= 1
    ensures Ascending(RsdQcTable(rows, hasCorrected, sqrt).value, RsdKeyLess)
  {
    var ms := GetMeasurements(rows, true);
    if HasQc(ms) {
      RsdRowsExact(ms, GetCompounds(rows), GetBatches(rows), sqrt);
      RsdRowsOrdered(ms, GetCompounds(rows), GetBatches(rows), sqrt);
    }
  }

  /** The loops of `rsdqc` over given compounds and batches; a batch with a QC
      row of the compound raises a `KeyError` when there is no corrected column. */
  method RsdQcOf(ms: seq<Row>, hasCorrected: bool, compounds: seq<string>, batches: seq<int>, sqrt: real -> real)
    returns (out: Outcome<seq<RsdRow>>)
    ensures out == if hasCorrected || Blocks(compounds, batches, RsdCell(ms, sqrt)) == []
                   then Ok(Blocks(compounds, batches, RsdCell(ms, sqrt)))
                   else KeyError("inter_median_qc_corrected")
  {
    var rsdqc: seq<RsdRow> := [];
    var ci := 0;
    while ci < |compounds|
      invariant 0 <= ci <= |compounds|
      invariant rsdqc == Blocks(compounds[..ci], batches, RsdCell(ms, sqrt))
      invariant !hasCorrected ==> rsdqc == []
    {
      var rows, raised := RsdCompound(ms, hasCorrected, compounds[ci], batches, sqrt);
      if raised {
        NonEmptyBlockRow(compounds, batches, RsdCell(ms, sqrt), ci);
        return KeyError("inter_median_qc_corrected");
      }
      BlocksSnoc(compounds, batches, RsdCell(ms, sqrt), ci);
      rsdqc := rsdqc + rows;
      ci := ci + 1;
    }
    assert compounds[..ci] == compounds;
    return Ok(rsdqc);
  }

  /** The inner loop of `rsdqc` for one compound; `raised` when it ends in a
      `KeyError`. */
  method RsdCompound(ms: seq<Row>, hasCorrected: bool, compound: string, batches: seq<int>, sqrt: real -> real)
    returns (rows: seq<RsdRow>, raised: bool)
    ensures raised <==> !hasCorrected && BlockRow(compound, batches, RsdCell(ms, sqrt)) != []
    ensures !raised ==> rows == BlockRow(compound, batches, RsdCell(ms, sqrt))
  {
    rows := [];
    var bi := 0;
    while bi < |batches|
      invariant 0 <= bi <= |batches|
      invariant rows == BlockRow(compound, batches[..bi], RsdCell(ms, sqrt))
      invariant !hasCorrected ==> rows == []
    {
      var batch := batches[bi];
      var compoundBatchQc := Filter(ms, QcOf(compound, batch));
      BlockRowSnoc(compound, batches, RsdCell(ms, sqrt), bi);
      if |compoundBatchQc| >= 1 {
        if !hasCorrected {
          NonEmptyCell(compound, batches, RsdCell(ms, sqrt), batch);
          return [], true;
        }
        var rsdNc := Rsd(Areas(compoundBatchQc), sqrt);
        var rsdIsCorrected := Rsd(Ratios(compoundBatchQc), sqrt);
        var rsdInterMedianQcCorrected := Rsd(CorrectedValues(compoundBatchQc), sqrt);
        rows := rows + [RsdRow(compound, batch, rsdNc, RoundOpt(rsdIsCorrected), RoundOpt(rsdInterMedianQcCorrected))];
      }
      bi := bi + 1;
    }
    assert batches[..bi] == batches;
    raised := false;
  }

  // ---------------------------------------------------------------------------
  // Retention-time shifts

  /** One row of the retention-time shift table. */
  datatype RtShiftRow = RtShiftRow(compound: string, batch: int, sample: string, rtMean: real, rtStdev: real,
                                   rtShift: real)

  function RtOf(r: Row): real { r.rt }

  function ShiftOf(r: RtShiftRow): real { r.rtShift }

  /** The rows of compound `c` in batch `b`. */
  function InGroup(c: string, b: int): (p: Row -> bool)
    ensures forall x :: p(x) <==> x.batch == b && x.compound == c
  {
    (x: Row) => x.batch == b && x.compound == c
  }

  /** The shift rows of one group: each row's retention time against the mean
      and population standard deviation of the group's retention times. */
  function GroupShifts(c: string, b: int, group: seq<Row>, sqrt: real -> real): (r: seq<RtShiftRow>)
    ensures |r| == |group|
  {
    if |group| == 0 then []
    else
      var rts := Map(group, RtOf);
      var mean := Mean(rts).value;
      var stdev := PopulationStd(rts, sqrt).value;
      seq(|group|, i requires 0 <= i < |group| => RtShiftRow(c, b, group[i].sample, mean, stdev, group[i].rt - mean))
  }

  /** Shift row `i` of a group is that of the group's row `i`, against the mean
      and the standard deviation of the whole group. */
  lemma GroupShiftAt(c: string, b: int, group: seq<Row>, sqrt: real -> real, i: nat)
    requires i < |group|
    ensures GroupShifts(c, b, group, sqrt)[i].compound == c && GroupShifts(c, b, group, sqrt)[i].batch == b
    ensures GroupShifts(c, b, group, sqrt)[i].sample == group[i].sample
    ensures Some(GroupShifts(c, b, group, sqrt)[i].rtMean) == Mean(Map(group, RtOf))
    ensures Some(GroupShifts(c, b, group, sqrt)[i].rtStdev) == PopulationStd(Map(group, RtOf), sqrt)
    ensures GroupShifts(c, b, group, sqrt)[i].rtShift == group[i].rt - GroupShifts(c, b, group, sqrt)[i].rtMean
  {
  }

  lemma GroupShiftsMember(c: string, b: int, group: seq<Row>, sqrt: real -> real, r: RtShiftRow)
    requires r in GroupShifts(c, b, group, sqrt)
    ensures r.compound == c && r.batch == b
    ensures exists x :: x in group && x.sample == r.sample && r.rtShift == x.rt - r.rtMean
    ensures Some(r.rtMean) == Mean(Map(group, RtOf)) && Some(r.rtStdev) == PopulationStd(Map(group, RtOf), sqrt)
  {
    var i :| 0 <= i < |group| && GroupShifts(c, b, group, sqrt)[i] == r;
    GroupShiftAt(c, b, group, sqrt, i);
    assert group[i] in group;
  }

  /** The shifts of a group sum to zero. */
  lemma GroupShiftsSumToZero(c: string, b: int, group: seq<Row>, sqrt: real -> real)
    ensures Sum(Map(GroupShifts(c, b, group, sqrt), ShiftOf)) == 0.0
  {
    if |group| > 0 {
      var rts := Map(group, RtOf);
      assert Map(GroupShifts(c, b, group, sqrt), ShiftOf) == Deviations(rts, Mean(rts).value);
      DeviationsFromMeanSumToZero(rts);
    }
  }

  function RtCell(ms: seq<Row>, sqrt: real -> real): (string, int) -> seq<RtShiftRow> {
    (c: string, b: int) => GroupShifts(c, b, Filter(ms, InGroup(c, b)), sqrt)
  }

  /** `rt_shifts`: the shift rows of every compound and batch of the finite-area
      rows, compound by compound. */
  function RtShiftTable(rows: seq<Row>, sqrt: real -> real): seq<RtShiftRow> {
    Blocks(GetCompounds(rows), GetBatches(rows), RtCell(GetMeasurements(rows, true), sqrt))
  }

  function RtCompoundOf(r: RtShiftRow): string { r.compound }

  function RtBatchOf(r: RtShiftRow): int { r.batch }

  /** Compound first, then batch; rows of one group in either order. */
  predicate RtKeyBefore(x: RtShiftRow, y: RtShiftRow) {
    StrLess(x.compound, y.compound) || (x.compound == y.compound && x.batch <= y.batch)
  }

  lemma GroupSizeAsNested(ms: seq<Row>, c: string, b: int)
    ensures |Filter(ms, InGroup(c, b))| == |Filter(Filter(ms, KeyIs(CompoundOf, c)), KeyIs(BatchOf, b))|
  {
    FilterFilter(ms, KeyIs(CompoundOf, c), KeyIs(BatchOf, b), InGroup(c, b));
  }

  /** `rt_shifts` has one row per finite-area row. */
  lemma RtShiftCount(rows: seq<Row>, sqrt: real -> real)
    ensures |RtShiftTable(rows, sqrt)| == |GetMeasurements(rows, true)|
  {
    var ms := GetMeasurements(rows, true);
    var cs, bs := GetCompounds(rows), GetBatches(rows);
    StrLessIsStrictTotal();
    AscendingDistinct(cs, StrLess);
    AscendingDistinct(bs, IntLess);
    forall c, b ensures |RtCell(ms, sqrt)(c, b)| == |Filter(Filter(ms, KeyIs(CompoundOf, c)), KeyIs(BatchOf, b))| {
      GroupSizeAsNested(ms, c, b);
    }
    BlocksSize(cs, bs, RtCell(ms, sqrt), ms, CompoundOf, BatchOf);
  }

  /** Every row of `rt_shifts` is that of a finite-area row of its compound and
      batch, with the mean and standard deviation of that group. */
  lemma RtShiftSound(rows: seq<Row>, sqrt: real -> real)
    ensures forall r :: r in RtShiftTable(rows, sqrt) ==>
              exists x :: x in Filter(GetMeasurements(rows, true), InGroup(r.compound, r.batch)) &&
                x.sample == r.sample && r.rtShift == x.rt - r.rtMean
    ensures forall r :: r in RtShiftTable(rows, sqrt) ==>
              Some(r.rtMean) == Mean(Map(Filter(GetMeasurements(rows, true), InGroup(r.compound, r.batch)), RtOf)) &&
              Some(r.rtStdev) ==
                PopulationStd(Map(Filter(GetMeasurements(rows, true), InGroup(r.compound, r.batch)), RtOf), sqrt)
  {
    var ms := GetMeasurements(rows, true);
    BlocksMembers(GetCompounds(rows), GetBatches(rows), RtCell(ms, sqrt));
    forall r | r in RtShiftTable(rows, sqrt)
      ensures exists x :: x in Filter(ms, InGroup(r.compound, r.batch)) && x.sample == r.sample && r.rtShift == x.rt - r.rtMean
      ensures Some(r.rtMean) == Mean(Map(Filter(ms, InGroup(r.compound, r.batch)), RtOf))
      ensures Some(r.rtStdev) == PopulationStd(Map(Filter(ms, InGroup(r.compound, r.batch)), RtOf), sqrt)
    {
      var c, b :| c in GetCompounds(rows) && b in GetBatches(rows) && r in RtCell(ms, sqrt)(c, b);
      GroupShiftsMember(c, b, Filter(ms, InGroup(c, b)), sqrt, r);
    }
  }

  /** Every finite-area row has its shift row in `rt_shifts`. */
  lemma RtShiftComplete(rows: seq<Row>, sqrt: real -> real, x: Row)
    requires x in GetMeasurements(rows, true)
    ensures exists r :: r in RtShiftTable(rows, sqrt) && r.compound == x.compound && r.batch == x.batch &&
              r.sample == x.sample && r.rtShift == x.rt - r.rtMean
  {
    var ms := GetMeasurements(rows, true);
    var group := Filter(ms, InGroup(x.compound, x.batch));
    assert x in group;
    var r := GroupShiftOfRow(x.compound, x.batch, group, sqrt, x);
    assert r in RtCell(ms, sqrt)(x.compound, x.batch);
    assert x.compound in GetCompounds(rows) && x.batch in GetBatches(rows);
    CellInBlocks(GetCompounds(rows), GetBatches(rows), RtCell(ms, sqrt), x.compound, x.batch, r);
  }

  /** The shift row of a row of a group. */
  lemma GroupShiftOfRow(c: string, b: int, group: seq<Row>, sqrt: real -> real, x: Row) returns (r: RtShiftRow)
    requires x in group
    ensures r in GroupShifts(c, b, group, sqrt)
    ensures r.compound == c && r.batch == b && r.sample == x.sample && r.rtShift == x.rt - r.rtMean
  {
    var i :| 0 <= i < |group| && group[i] == x;
    GroupShiftAt(c, b, group, sqrt, i);
    r := GroupShifts(c, b, group, sqrt)[i];
  }

  lemma GroupShiftKey(c: string, b: int, group: seq<Row>, sqrt: real -> real, r: RtShiftRow)
    requires r in GroupShifts(c, b, group, sqrt)
    ensures RtCompoundOf(r) == c && RtBatchOf(r) == b
  {
    var i :| 0 <= i < |group| && GroupShifts(c, b, group, sqrt)[i] == r;
  }

  lemma RtCellKeyed(ms: seq<Row>, sqrt: real -> real)
    ensures KeyedBy(RtCell(ms, sqrt), RtCompoundOf, RtBatchOf)
  {
    forall c, b, x | x in RtCell(ms, sqrt)(c, b) ensures RtCompoundOf(x) == c && RtBatchOf(x) == b {
      GroupShiftKey(c, b, Filter(ms, InGroup(c, b)), sqrt, x);
    }
  }

  lemma RtCellAscending(ms: seq<Row>, sqrt: real -> real, c: string, b: int)
    ensures Ascending(RtCell(ms, sqrt)(c, b), RtKeyBefore)
  {
    var group := Filter(ms, InGroup(c, b));
    var r := GroupShifts(c, b, group, sqrt);
    assert RtCell(ms, sqrt)(c, b) == r;
    forall i, j | 0 <= i < j < |r| ensures RtKeyBefore(r[i], r[j]) {
      GroupShiftAt(c, b, group, sqrt, i);
      GroupShiftAt(c, b, group, sqrt, j);
    }
  }

  /** `rt_shifts` lists its rows compound by compound and, within a compound,
      batch by batch. */
  lemma RtShiftOrdered(rows: seq<Row>, sqrt: real -> real)
    ensures Ascending(RtShiftTable(rows, sqrt), RtKeyBefore)
  {
    var ms := GetMeasurements(rows, true);
    RtCellKeyed(ms, sqrt);
    assert CompoundMajor(RtKeyBefore, RtCompoundOf, RtBatchOf);
    forall c, b ensures Ascending(RtCell(ms, sqrt)(c, b), RtKeyBefore) {
      RtCellAscending(ms, sqrt, c, b);
    }
    BlocksAscending(GetCompounds(rows), GetBatches(rows), RtCell(ms, sqrt), RtKeyBefore, RtCompoundOf, RtBatchOf);
  }

  /** The shifts of every compound and batch of `rt_shifts` sum to zero. */
  lemma RtShiftsBalance(rows: seq<Row>, sqrt: real -> real, c: string, b: int)
    ensures Sum(Map(Filter(RtShiftTable(rows, sqrt), AtKey(RtCompoundOf, RtBatchOf, c, b)), ShiftOf)) == 0.0
  {
    var ms := GetMeasurements(rows, true);
    var cs, bs := GetCompounds(rows), GetBatches(rows);
    StrLessIsStrictTotal();
    AscendingDistinct(cs, StrLess);
    AscendingDistinct(bs, IntLess);
    RtCellKeyed(ms, sqrt);
    BlocksSelect(cs, bs, RtCell(ms, sqrt), RtCompoundOf, RtBatchOf, c, b);
    GroupShiftsSumToZero(c, b, Filter(ms, InGroup(c, b)), sqrt);
  }

  /** The loops of `rt_shifts` over given compounds and batches: for each group,
      one row per row of the group, in table order. */
  method RtShiftsOf(ms: seq<Row>, compounds: seq<string>, batches: seq<int>, sqrt: real -> real)
    returns (shifts: seq<RtShiftRow>)
    ensures shifts == Blocks(compounds, batches, RtCell(ms, sqrt))
  {
    shifts := [];
    var ci := 0;
    while ci < |compounds|
      invariant 0 <= ci <= |compounds|
      invariant shifts == Blocks(compounds[..ci], batches, RtCell(ms, sqrt))
    {
      BlocksSnoc(compounds, batches, RtCell(ms, sqrt), ci);
      var compoundShifts := CompoundShiftsOf(ms, compounds[ci], batches, sqrt);
      shifts := shifts + compoundShifts;
      ci := ci + 1;
    }
    assert compounds[..ci] == compounds;
  }

  /** The batch loop of `rt_shifts` for one compound. */
  method CompoundShiftsOf(ms: seq<Row>, compound: string, batches: seq<int>, sqrt: real -> real)
    returns (r: seq<RtShiftRow>)
    ensures r == BlockRow(compound, batches, RtCell(ms, sqrt))
  {
    r := [];
    var bi := 0;
    while bi < |batches|
      invariant 0 <= bi <= |batches|
      invariant r == BlockRow(compound, batches[..bi], RtCell(ms, sqrt))
    {
      BlockRowSnoc(compound, batches, RtCell(ms, sqrt), bi);
      var groupShifts := GroupShiftsOf(ms, compound, batches[bi], sqrt);
      r := r + groupShifts;
      bi := bi + 1;
    }
    assert batches[..bi] == batches;
  }

  /** One group of `rt_shifts`: nothing for an empty group, otherwise the
      `iterrows` loop, one row per row of the group. */
  method GroupShiftsOf(ms: seq<Row>, compound: string, batch: int, sqrt: real -> real)
    returns (r: seq<RtShiftRow>)
    ensures r == RtCell(ms, sqrt)(compound, batch)
  {
    var compoundBatch := Filter(ms, InGroup(compound, batch));
    ghost var cell := GroupShifts(compound, batch, compoundBatch, sqrt);
    r := [];
    if |compoundBatch| >= 1 {
      var rtMean := Mean(Map(compoundBatch, RtOf)).value;
      var rtStdev := PopulationStd(Map(compoundBatch, RtOf), sqrt).value;
      var k := 0;
      while k < |compoundBatch|
        invariant 0 <= k <= |compoundBatch|
        invariant r == cell[..k]
      {
        var c := compoundBatch[k];
        r := r + [RtShiftRow(compound, batch, c.sample, rtMean, rtStdev, c.rt - rtMean)];
        assert cell[..k + 1] == cell[..k] + [cell[k]];
        k := k + 1;
      }
      assert cell[..k] == cell;
    }
  }

  // ---------------------------------------------------------------------------
  // The calculations on a measurement table

  class Qccalc {
    var mea: Mea

    /** `Qccalc(mea)`. */
    constructor (mea: Mea)
      ensures this.mea == mea
    {
      this.mea := mea;
    }

    /** `set_mea`. */
    method SetMea(mea: Mea)
      modifies this
      ensures this.mea == mea
    {
      this.mea := mea;
    }

    /** `blank_effect`: the blank effect of every batch and compound of the
        finite-area rows, batch by batch. */
    method BlankEffect() returns (r: seq<BlankEffectRow>)
      ensures r == BlankEffectTable(mea.measurements)
    {
      var measurements := GetMeasurements(mea.measurements, true);
      r := BlankEffectsOf(measurements, GetBatches(mea.measurements), GetCompounds(mea.measurements));
    }

    /** `qc_correction`: when the finite-area rows hold a QC row, fills in the
        corrected column and makes the result the table of `mea`; otherwise
        leaves `mea` alone. */
    method QcCorrection() returns (f: Frame)
      modifies mea
      ensures f == QcCorrectionOf(old(mea.measurements))
      ensures HasQc(GetMeasurements(old(mea.measurements), true)) ==>
                mea.measurements == f.rows && mea.hasCorrected
      ensures !HasQc(GetMeasurements(old(mea.measurements), true)) ==>
                mea.measurements == old(mea.measurements) && mea.hasCorrected == old(mea.hasCorrected)
    {
      var measurements := GetMeasurements(mea.measurements, true);
      if |Filter(measurements, KeyIs(TypeOf, "qc"))| <= 0 {
        return Frame([], false);
      }
      measurements := CorrectAll(measurements);
      f := Frame(measurements, true);
      mea.SetMeasurements(f);
    }

    /** `rsdqc`. */
    method RsdQc(sqrt: real -> real) returns (out: Outcome<seq<RsdRow>>)
      ensures out == RsdQcTable(mea.measurements, mea.hasCorrected, sqrt)
    {
      var measurements := GetMeasurements(mea.measurements, true);
      if |Filter(measurements, KeyIs(TypeOf, "qc"))| <= 0 {
        return Ok([]);
      }
      out := RsdQcOf(measurements, mea.hasCorrected, GetCompounds(mea.measurements), GetBatches(mea.measurements), sqrt);
      RsdQcTableWithQc(mea.measurements, mea.hasCorrected, sqrt);
    }

    /** `rt_shifts`. */
    method RtShifts(sqrt: real -> real) returns (r: seq<RtShiftRow>)
      ensures r == RtShiftTable(mea.measurements, sqrt)
    {
      var measurements := GetMeasurements(mea.measurements, true);
      r := RtShiftsOf(measurements, GetCompounds(mea.measurements), GetBatches(mea.measurements), sqrt);
    }
  }
}
