/** The measurement table of mzQuality: one row per (compound, injection), the
    derivation step that runs when a measurement file is loaded, the read-only
    accessors the QC algorithms use, and the sample-by-compound data matrix. */
module Measurements {
  import opened Wrappers
  import opened Seqs
  import opened Order
  import opened Stats

  /** One row of the tab-separated measurement file. `area`, `areaIs` and
      `corrected` are `None` where the file holds a missing or non-finite value. */
  datatype RawRow = RawRow(
    compound: string, compoundIs: string, batch: int, sample: string,
    replicate: string, aliquot: string, order: int, sampleType: string,
    area: Option<real>, areaIs: Option<real>, rt: real, corrected: Option<real>)

  /** A row of the loaded table: the file's columns, the derived `ratio` and
      `position`, and `index`, the pandas row label (the row's number in the file). */
  datatype Row = Row(
    compound: string, compoundIs: string, batch: int, sample: string,
    replicate: string, aliquot: string, order: int, sampleType: string,
    area: Option<real>, areaIs: Option<real>, rt: real, ratio: Option<real>,
    corrected: Option<real>, index: nat, position: int)

  /** A table together with whether it has the `inter_median_qc_corrected` column. */
  datatype Frame = Frame(rows: seq<Row>, hasCorrected: bool)

  // Column projections, used as keys for selections and groupings.
  function CompoundOf(r: Row): string { r.compound }
  function CompoundIsOf(r: Row): string { r.compoundIs }
  function BatchOf(r: Row): int { r.batch }
  function SampleOf(r: Row): string { r.sample }
  function AliquotOf(r: Row): string { r.aliquot }
  function TypeOf(r: Row): string { r.sampleType }
  function IndexOfRow(r: Row): int { r.index }
  function PositionOf(r: Row): int { r.position }
  function AreaOf(r: Row): Option<real> { r.area }

  // ---------------------------------------------------------------------------
  // Compound-name sanitising

  /** The characters that `fix_compound_name` rewrites. */
  predicate Unsafe(ch: char) {
    ch == ' ' || ch == '*' || ch == '%' || ch == '&' || ch == ','
  }

  function Replacement(ch: char): string {
    match ch
    case ' ' => "_"
    case '*' => "_star"
    case '%' => "_pct"
    case '&' => "_and"
    case ',' => "_"
    case _ => [ch]
  }

  /** Translates every unsafe character of `name` to its replacement. The result
      holds no unsafe character, and a name without one is left as it is. */
  function FixCompoundName(name: string): (r: string)
    ensures forall i :: 0 <= i < |r| ==> !Unsafe(r[i])
    ensures (forall i :: 0 <= i < |name| ==> !Unsafe(name[i])) ==> r == name
    decreases |name|
  {
    if |name| == 0 then ""
    else
      assert forall i :: 0 <= i < |Replacement(name[0])| ==> !Unsafe(Replacement(name[0])[i]);
      Replacement(name[0]) + FixCompoundName(name[1..])
  }

  /** Sanitising works character by character, so it distributes over concatenation. */
  lemma {:induction false} FixCompoundNameAppend(a: string, b: string)
    ensures FixCompoundName(a + b) == FixCompoundName(a) + FixCompoundName(b)
    decreases |a|
  {
    if |a| == 0 {
      assert a + b == b;
    } else {
      assert (a + b)[0] == a[0];
      assert (a + b)[1..] == a[1..] + b;
      FixCompoundNameAppend(a[1..], b);
    }
  }

  /** Sanitising an already sanitised name changes nothing. */
  lemma FixCompoundNameIdempotent(name: string)
    ensures FixCompoundName(FixCompoundName(name)) == FixCompoundName(name)
  {
  }

  /** The translation table: a space and a comma become `_`, `*` becomes `_star`,
      `%` becomes `_pct`, `&` becomes `_and`, and every other character stays. */
  lemma FixCompoundNameChars(ch: char)
    ensures FixCompoundName([' ']) == "_" && FixCompoundName([',']) == "_"
    ensures FixCompoundName(['*']) == "_star" && FixCompoundName(['%']) == "_pct"
    ensures FixCompoundName(['&']) == "_and"
    ensures !Unsafe(ch) ==> FixCompoundName([ch]) == [ch]
  {
    assert forall c: char :: [c][1..] == [];
  }

  /** Sanitising is not injective: two different names can map to the same one. */
  lemma FixCompoundNameCollides()
    ensures "a b" != "a,b" && FixCompoundName("a b") == FixCompoundName("a,b") == "a_b"
  {
    assert "a b"[1] != "a,b"[1];
    assert FixCompoundName("b") == "b";
    assert FixCompoundName(" b") == "_b";
    assert FixCompoundName(",b") == "_b";
  }

  // ---------------------------------------------------------------------------
  // Loading: the derivation applied to the file's rows

  /** `area / area_is`: undefined when either operand is, or when `area_is` is zero. */
  function RatioOf(area: Option<real>, areaIs: Option<real>): (r: Option<real>)
    ensures r.Some? <==> area.Some? && areaIs.Some? && areaIs.value != 0.0
    ensures r.Some? ==> r.value * areaIs.value == area.value
  {
    if Div(area, areaIs).Some? then
      DivTimes(area, areaIs, Div(area, areaIs).value);
      Div(area, areaIs)
    else Div(area, areaIs)
  }

  /** The i-th row of the file as pandas reads it, before any derived column. */
  function ReadRow(r: RawRow, i: nat, hasCorrected: bool): Row {
    Row(r.compound, r.compoundIs, r.batch, r.sample, r.replicate, r.aliquot, r.order,
        r.sampleType, r.area, r.areaIs, r.rt, None,
        if hasCorrected then r.corrected else None, i, 0)
  }

  function ReadRows(raw: seq<RawRow>, hasCorrected: bool): (rows: seq<Row>)
    ensures |rows| == |raw|
    ensures forall i :: 0 <= i < |raw| ==> rows[i] == ReadRow(raw[i], i, hasCorrected)
  {
    seq(|raw|, i requires 0 <= i < |raw| => ReadRow(raw[i], i, hasCorrected))
  }

  function FixNames(rows: seq<Row>): (r: seq<Row>)
    ensures |r| == |rows|
    ensures forall i :: 0 <= i < |rows| ==>
              r[i] == rows[i].(compound := FixCompoundName(rows[i].compound))
  {
    seq(|rows|, i requires 0 <= i < |rows| =>
      rows[i].(compound := FixCompoundName(rows[i].compound)))
  }

  function WithRatios(rows: seq<Row>): (r: seq<Row>)
    ensures |r| == |rows|
    ensures forall i :: 0 <= i < |rows| ==>
              r[i] == rows[i].(ratio := RatioOf(rows[i].area, rows[i].areaIs))
  {
    seq(|rows|, i requires 0 <= i < |rows| =>
      rows[i].(ratio := RatioOf(rows[i].area, rows[i].areaIs)))
  }

  /** `position = index + 1`, where the index is still the row's number in the file. */
  function WithPositions(rows: seq<Row>): (r: seq<Row>)
    ensures |r| == |rows|
    ensures forall i :: 0 <= i < |rows| ==> r[i] == rows[i].(position := rows[i].index + 1)
  {
    seq(|rows|, i requires 0 <= i < |rows| => rows[i].(position := rows[i].index + 1))
  }

  /** Sort key `(batch, order)`, both ascending. */
  predicate KeyLess(a: Row, b: Row) {
    a.batch < b.batch || (a.batch == b.batch && a.order < b.order)
  }

  predicate SameKey(a: Row, b: Row) {
    a.batch == b.batch && a.order == b.order
  }

  predicate SortedByBatchOrder(rows: seq<Row>) {
    forall i, j :: 0 <= i < j < |rows| ==> !KeyLess(rows[j], rows[i])
  }

  /** Inserts `x` after every row whose key is not greater than its own. */
  function InsertByKey(x: Row, s: seq<Row>): seq<Row>
    decreases |s|
  {
    if |s| == 0 then [x]
    else if KeyLess(x, s[0]) then [x] + s
    else [s[0]] + InsertByKey(x, s[1..])
  }

  lemma {:induction false} InsertByKeyMultiset(x: Row, s: seq<Row>)
    ensures multiset(InsertByKey(x, s)) == multiset(s) + multiset{x}
    decreases |s|
  {
    if |s| > 0 {
      assert s == [s[0]] + s[1..];
      if !KeyLess(x, s[0]) {
        InsertByKeyMultiset(x, s[1..]);
      }
    }
  }

  lemma {:induction false} InsertByKeySorted(x: Row, s: seq<Row>)
    requires SortedByBatchOrder(s)
    ensures SortedByBatchOrder(InsertByKey(x, s))
    decreases |s|
  {
    if |s| > 0 && !KeyLess(x, s[0]) {
      var s' := s[1..];
      InsertByKeySorted(x, s');
      InsertByKeyMultiset(x, s');
      var u := InsertByKey(x, s');
      forall j | 0 <= j < |u| ensures !KeyLess(u[j], s[0]) {
        assert u[j] in multiset(u);
        assert u[j] == x || u[j] in s';
      }
      assert InsertByKey(x, s) == [s[0]] + u;
    }
  }

  /** Stable sort by `(batch, order)` (insertion sort): the table after
      `sort_values(['batch', 'order'])`. */
  function SortByBatchOrder(rows: seq<Row>): (r: seq<Row>)
    ensures SortedByBatchOrder(r)
    ensures multiset(r) == multiset(rows)
    decreases |rows|
  {
    if |rows| == 0 then []
    else
      var pre, x := rows[..|rows| - 1], rows[|rows| - 1];
      assert rows == pre + [x];
      InsertByKeySorted(x, SortByBatchOrder(pre));
      InsertByKeyMultiset(x, SortByBatchOrder(pre));
      InsertByKey(x, SortByBatchOrder(pre))
  }

  /** Rows with the same key keep their file order. */
  predicate StableByIndex(rows: seq<Row>) {
    forall i, j :: 0 <= i < j < |rows| && SameKey(rows[i], rows[j]) ==>
      rows[i].index < rows[j].index
  }

  /** Placing `x` in front of rows with a greater key keeps file order within keys. */
  lemma InsertByKeyStableFront(x: Row, s: seq<Row>)
    requires SortedByBatchOrder(s) && StableByIndex(s)
    requires |s| > 0 && KeyLess(x, s[0])
    ensures StableByIndex([x] + s)
  {
    var u := [x] + s;
    forall i, j | 0 <= i < j < |u| && SameKey(u[i], u[j]) ensures u[i].index < u[j].index {
      assert u[j] == s[j - 1];
      if i > 0 {
        assert u[i] == s[i - 1];
      }
    }
  }

  lemma {:induction false} InsertByKeyStable(x: Row, s: seq<Row>)
    requires SortedByBatchOrder(s) && StableByIndex(s)
    requires forall y :: y in s ==> y.index < x.index
    ensures StableByIndex(InsertByKey(x, s))
    decreases |s|
  {
    if |s| > 0 {
      if KeyLess(x, s[0]) {
        InsertByKeyStableFront(x, s);
      } else {
        var s' := s[1..];
        assert forall y :: y in s' ==> y in s;
        InsertByKeyStable(x, s');
        InsertByKeyMultiset(x, s');
        var u' := InsertByKey(x, s');
        InsertByKeyStableAfter(x, s, u');
      }
    }
  }

  /** Keeping the first row in front of the insertion into the rest keeps file order. */
  lemma InsertByKeyStableAfter(x: Row, s: seq<Row>, u': seq<Row>)
    requires |s| > 0 && StableByIndex(s) && StableByIndex(u')
    requires forall y :: y in s ==> y.index < x.index
    requires multiset(u') == multiset(s[1..]) + multiset{x}
    ensures StableByIndex([s[0]] + u')
  {
    var u := [s[0]] + u';
    forall i, j | 0 <= i < j < |u| && SameKey(u[i], u[j]) ensures u[i].index < u[j].index {
      assert u[j] == u'[j - 1];
      if i == 0 {
        assert u'[j - 1] in multiset(u');
        if u'[j - 1] != x {
          assert u'[j - 1] in multiset(s[1..]);
          var k :| 0 <= k < |s[1..]| && s[1..][k] == u'[j - 1];
          assert s[k + 1] == u'[j - 1];
        }
      } else {
        assert u[i] == u'[i - 1];
      }
    }
  }

  lemma {:induction false} SortByBatchOrderStable(rows: seq<Row>)
    requires forall i, j :: 0 <= i < j < |rows| ==> rows[i].index < rows[j].index
    ensures StableByIndex(SortByBatchOrder(rows))
    decreases |rows|
  {
    if |rows| > 0 {
      var pre, x := rows[..|rows| - 1], rows[|rows| - 1];
      assert rows == pre + [x];
      SortByBatchOrderStable(pre);
      var s := SortByBatchOrder(pre);
      forall y | y in s ensures y.index < x.index {
        assert y in multiset(pre);
        var k :| 0 <= k < |pre| && pre[k] == y;
        assert rows[k] == y;
      }
      InsertByKeyStable(x, s);
    }
  }

  /** The rows of a file before sorting: names sanitised and ratio added. */
  function Derive(raw: seq<RawRow>, hasCorrected: bool): seq<Row> {
    WithRatios(FixNames(ReadRows(raw, hasCorrected)))
  }

  /** The i-th row of the file with its derived columns, before sorting and positions. */
  function Derived(r: RawRow, i: nat, hasCorrected: bool): Row {
    var x := ReadRow(r, i, hasCorrected);
    x.(compound := FixCompoundName(r.compound), ratio := RatioOf(r.area, r.areaIs))
  }

  lemma DerivedRows(raw: seq<RawRow>, hasCorrected: bool)
    ensures var d := Derive(raw, hasCorrected);
            |d| == |raw| &&
            (forall i :: 0 <= i < |raw| ==> d[i] == Derived(raw[i], i, hasCorrected)) &&
            Map(d, IndexOfRow) == seq(|raw|, i => i)
  {
  }

  /** The table `read_mea_file` leaves behind as written: sorted by `(batch, order)`,
      with `position` taken from the row labels the sort carried along, so that it
      is the row's number in the file plus one. */
  function LoadAsWritten(raw: seq<RawRow>, hasCorrected: bool): seq<Row> {
    WithPositions(SortByBatchOrder(Derive(raw, hasCorrected)))
  }

  /** `position` as the 1-based rank of the row in the sorted table. */
  function RankPositions(rows: seq<Row>): (r: seq<Row>)
    ensures |r| == |rows|
    ensures forall i :: 0 <= i < |rows| ==> r[i] == rows[i].(position := i + 1)
  {
    seq(|rows|, i requires 0 <= i < |rows| => rows[i].(position := i + 1))
  }

  /** The table `read_mea_file` is meant to leave behind: names sanitised, ratio
      added, sorted by `(batch, order)`, and `position` the row's rank in that order. */
  function Load(raw: seq<RawRow>, hasCorrected: bool): seq<Row> {
    RankPositions(SortByBatchOrder(Derive(raw, hasCorrected)))
  }

  /** Ranking changes no column the sort order or file order looks at. */
  lemma RankPositionsKeys(s: seq<Row>)
    ensures SortedByBatchOrder(s) ==> SortedByBatchOrder(RankPositions(s))
    ensures StableByIndex(s) ==> StableByIndex(RankPositions(s))
  {
    var t := RankPositions(s);
    assert forall i :: 0 <= i < |s| ==>
             t[i].batch == s[i].batch && t[i].order == s[i].order && t[i].index == s[i].index;
  }

  /** Setting `position` from the row label changes no column the sort order or
      file order looks at. */
  lemma WithPositionsKeys(s: seq<Row>)
    ensures SortedByBatchOrder(s) ==> SortedByBatchOrder(WithPositions(s))
    ensures StableByIndex(s) ==> StableByIndex(WithPositions(s))
  {
    var t := WithPositions(s);
    assert forall i :: 0 <= i < |s| ==>
             t[i].batch == s[i].batch && t[i].order == s[i].order && t[i].index == s[i].index;
  }

  /** After loading, as written and as intended, the rows are in ascending
      `(batch, order)` order, and rows with the same key are in file order. */
  lemma LoadSorted(raw: seq<RawRow>, hasCorrected: bool)
    ensures SortedByBatchOrder(LoadAsWritten(raw, hasCorrected))
    ensures StableByIndex(LoadAsWritten(raw, hasCorrected))
    ensures SortedByBatchOrder(Load(raw, hasCorrected))
    ensures StableByIndex(Load(raw, hasCorrected))
  {
    var d := Derive(raw, hasCorrected);
    DerivedRows(raw, hasCorrected);
    forall i, j | 0 <= i < j < |d| ensures d[i].index < d[j].index {
      assert Map(d, IndexOfRow)[i] == i && Map(d, IndexOfRow)[j] == j;
    }
    SortByBatchOrderStable(d);
    WithPositionsKeys(SortByBatchOrder(d));
    RankPositionsKeys(SortByBatchOrder(d));
  }

  /** As written, every loaded row is the derived file row its label names, with
      `position` that label plus one; and every file row is loaded exactly once. */
  lemma LoadRows(raw: seq<RawRow>, hasCorrected: bool)
    ensures var t := LoadAsWritten(raw, hasCorrected);
            |t| == |raw| &&
            (forall k :: 0 <= k < |t| ==>
               t[k].index < |raw| && t[k].position == t[k].index + 1 &&
               t[k] == Derived(raw[t[k].index], t[k].index, hasCorrected).(position := t[k].index + 1)) &&
            multiset(Map(t, IndexOfRow)) == multiset(seq(|raw|, i => i))
  {
    DerivedRows(raw, hasCorrected);
    IndexedRowsPlaced(Derive(raw, hasCorrected));
  }

  /** Sorting rows numbered 0..N-1 and labelling them by number places every row once. */
  lemma IndexedRowsPlaced(d: seq<Row>)
    requires Map(d, IndexOfRow) == seq(|d|, i => i)
    ensures var t := WithPositions(SortByBatchOrder(d));
            |t| == |d| &&
            (forall k :: 0 <= k < |t| ==>
               t[k].index < |d| && t[k].position == t[k].index + 1 &&
               t[k] == d[t[k].index].(position := t[k].index + 1)) &&
            multiset(Map(t, IndexOfRow)) == multiset(seq(|d|, i => i))
  {
    var s := SortByBatchOrder(d);
    var t := WithPositions(s);
    assert |s| == |multiset(s)| == |multiset(d)| == |d|;
    forall k | 0 <= k < |t| ensures t[k].index < |d| && t[k] == d[t[k].index].(position := t[k].index + 1) {
      assert s[k] in multiset(d);
      var i :| 0 <= i < |d| && d[i] == s[k];
      assert d[i].index == i by { assert Map(d, IndexOfRow)[i] == i; }
    }
    MultisetMap(s, d, IndexOfRow);
    assert Map(t, IndexOfRow) == Map(s, IndexOfRow);
  }

  /** As intended, every loaded row is the derived file row its label names, with
      `position` its rank; and every file row is loaded exactly once. */
  lemma LoadRankedRows(raw: seq<RawRow>, hasCorrected: bool)
    ensures var t := Load(raw, hasCorrected);
            |t| == |raw| &&
            (forall k :: 0 <= k < |t| ==>
               t[k].index < |raw| && t[k] == Derived(raw[t[k].index], t[k].index, hasCorrected).(position := k + 1)) &&
            multiset(Map(t, IndexOfRow)) == multiset(seq(|raw|, i => i))
  {
    DerivedRows(raw, hasCorrected);
    SortedRowsPlaced(Derive(raw, hasCorrected));
  }

  /** Sorting rows numbered 0..N-1 and ranking them places every row once. */
  lemma SortedRowsPlaced(d: seq<Row>)
    requires Map(d, IndexOfRow) == seq(|d|, i => i)
    ensures var t := RankPositions(SortByBatchOrder(d));
            |t| == |d| &&
            (forall k :: 0 <= k < |t| ==> t[k].index < |d| && t[k] == d[t[k].index].(position := k + 1)) &&
            multiset(Map(t, IndexOfRow)) == multiset(seq(|d|, i => i))
  {
    var s := SortByBatchOrder(d);
    var t := RankPositions(s);
    assert |s| == |multiset(s)| == |multiset(d)| == |d|;
    forall k | 0 <= k < |t| ensures t[k].index < |d| && t[k] == d[t[k].index].(position := k + 1) {
      assert s[k] in multiset(d);
      var i :| 0 <= i < |d| && d[i] == s[k];
      assert d[i].index == i by { assert Map(d, IndexOfRow)[i] == i; }
    }
    MultisetMap(s, d, IndexOfRow);
    assert Map(t, IndexOfRow) == Map(s, IndexOfRow);
  }

  /** The positions are exactly 1..N and follow `(batch, order)`: a row with a
      smaller key has a smaller position. */
  lemma LoadPositions(raw: seq<RawRow>, hasCorrected: bool)
    ensures var t := Load(raw, hasCorrected);
            multiset(Map(t, PositionOf)) == multiset(seq(|raw|, i => i + 1)) &&
            forall i, j :: 0 <= i < |t| && 0 <= j < |t| && KeyLess(t[i], t[j]) ==>
              t[i].position < t[j].position
  {
    var d := Derive(raw, hasCorrected);
    assert |d| == |raw|;
    SortedRankedPositions(d);
  }

  lemma SortedRankedPositions(d: seq<Row>)
    ensures var t := RankPositions(SortByBatchOrder(d));
            multiset(Map(t, PositionOf)) == multiset(seq(|d|, i => i + 1)) &&
            forall i, j :: 0 <= i < |t| && 0 <= j < |t| && KeyLess(t[i], t[j]) ==>
              t[i].position < t[j].position
  {
    var s := SortByBatchOrder(d);
    assert |s| == |multiset(s)| == |multiset(d)| == |d|;
    RankPositionsOrder(s);
    assert Map(RankPositions(s), PositionOf) == seq(|d|, i => i + 1);
  }

  lemma RankPositionsOrder(s: seq<Row>)
    requires SortedByBatchOrder(s)
    ensures forall i, j :: 0 <= i < |s| && 0 <= j < |s| && KeyLess(RankPositions(s)[i], RankPositions(s)[j]) ==>
              RankPositions(s)[i].position < RankPositions(s)[j].position
  {
    var t := RankPositions(s);
    assert forall i :: 0 <= i < |s| ==> KeyLess(t[i], s[i]) == false && t[i].batch == s[i].batch && t[i].order == s[i].order;
  }

  /** As written, the positions are still exactly 1..N. */
  lemma LoadAsWrittenPositions(raw: seq<RawRow>, hasCorrected: bool)
    ensures multiset(Map(LoadAsWritten(raw, hasCorrected), PositionOf)) ==
            multiset(seq(|raw|, i => i + 1))
  {
    DerivedRows(raw, hasCorrected);
    IndexedPositions(Derive(raw, hasCorrected));
  }

  lemma IndexedPositions(d: seq<Row>)
    requires Map(d, IndexOfRow) == seq(|d|, i => i)
    ensures multiset(Map(WithPositions(SortByBatchOrder(d)), PositionOf)) == multiset(seq(|d|, i => i + 1))
  {
    var s := SortByBatchOrder(d);
    MultisetMap(s, d, NextIndex);
    assert Map(WithPositions(s), PositionOf) == Map(s, NextIndex);
    IndexedRanks(d);
  }

  lemma IndexedRanks(d: seq<Row>)
    requires Map(d, IndexOfRow) == seq(|d|, i => i)
    ensures Map(d, NextIndex) == seq(|d|, i => i + 1)
  {
    forall i | 0 <= i < |d| ensures d[i].index == i {
      assert Map(d, IndexOfRow)[i] == i;
    }
  }

  function NextIndex(r: Row): int { r.index + 1 }

  /** A two-row file whose rows are in descending batch order. */
  function TwoBatchFile(): seq<RawRow> {
    [RawRow("c", "is", 2, "s2", "", "a2", 1, "sample", Some(1.0), Some(1.0), 1.0, None),
     RawRow("c", "is", 1, "s1", "", "a1", 1, "sample", Some(1.0), Some(1.0), 1.0, None)]
  }

  /** As written, the first row of the sorted table can carry a larger position
      than the second: positions do not follow `(batch, order)`. */
  lemma LoadPositionsNotRanks()
    ensures var t := LoadAsWritten(TwoBatchFile(), false);
            |t| == 2 && KeyLess(t[0], t[1]) && t[0].position == 2 && t[1].position == 1
  {
    var d := Derive(TwoBatchFile(), false);
    assert d[0].batch == 2 && d[1].batch == 1 && d[0].index == 0 && d[1].index == 1;
    assert d[..1] == [d[0]];
    assert SortByBatchOrder(d[..1]) == [d[0]];
    assert SortByBatchOrder(d) == [d[1], d[0]];
  }

  // ---------------------------------------------------------------------------
  // Selections

  predicate HasArea(r: Row) { r.area.Some? }

  /** Python's truth value of a `batch` argument: no batch, or batch 0, selects
      every batch. */
  predicate Truthy(batch: Option<int>) { batch.Some? && batch.value != 0 }

  /** `get_measurements`: with `dropNa`, the rows with a finite area, in table order,
      each as often as in the table. */
  function GetMeasurements(rows: seq<Row>, dropNa: bool): (r: seq<Row>)
    ensures |r| <= |rows|
    ensures forall x :: x in r <==> x in rows && (dropNa ==> x.area.Some?)
    ensures forall x :: multiset(r)[x] == if !dropNa || x.area.Some? then multiset(rows)[x] else 0
    ensures !dropNa ==> r == rows
  {
    if dropNa then FilterMultiset(rows, HasArea); Filter(rows, HasArea) else rows
  }

  /** The selection keeps table order: a row appended to the table is selected
      after all others, when it is selected at all. */
  lemma GetMeasurementsSnoc(rows: seq<Row>, x: Row, dropNa: bool)
    ensures GetMeasurements(rows + [x], dropNa) ==
            GetMeasurements(rows, dropNa) + (if !dropNa || x.area.Some? then [x] else [])
  {
    FilterSnoc(rows, x, HasArea);
  }

  /** `get_batch_data`. */
  function GetBatchData(rows: seq<Row>, batch: int, dropNa: bool): (r: seq<Row>)
    ensures forall x :: x in r <==> x in rows && (dropNa ==> x.area.Some?) && x.batch == batch
  {
    Filter(GetMeasurements(rows, dropNa), KeyIs(BatchOf, batch))
  }

  /** The rows `get_compound_data` and `get_internal_standard_data` start from. */
  function Selection(rows: seq<Row>, batch: Option<int>, dropNa: bool): (r: seq<Row>)
    ensures forall x :: x in r <==>
              x in rows && (dropNa ==> x.area.Some?) && (Truthy(batch) ==> x.batch == batch.value)
  {
    if Truthy(batch) then GetBatchData(rows, batch.value, dropNa) else GetMeasurements(rows, dropNa)
  }

  /** `get_compound_data`. */
  function GetCompoundData(rows: seq<Row>, compound: string, batch: Option<int>, dropNa: bool): (r: seq<Row>)
    ensures forall x :: x in r <==>
              x in rows && (dropNa ==> x.area.Some?) && (Truthy(batch) ==> x.batch == batch.value) &&
              x.compound == compound
  {
    Filter(Selection(rows, batch, dropNa), KeyIs(CompoundOf, compound))
  }

  /** The replicate markers that mean "not measured in replicate". */
  predicate NotReplicate(marker: string) {
    marker == "" || marker == "-" || marker == "_" || marker == "a"
  }

  predicate IsReplicate(r: Row) { !NotReplicate(r.replicate) }

  function SampleIn(samples: seq<string>): Row -> bool {
    (r: Row) => r.sample in samples
  }

  /** `get_replicate_measurements`: the rows of every sample that has at least one
      row with a real replicate marker. */
  function GetReplicateMeasurements(rows: seq<Row>, dropNa: bool): (r: seq<Row>)
    ensures forall x :: x in r <==>
              x in GetMeasurements(rows, dropNa) &&
              exists y :: y in GetMeasurements(rows, dropNa) && y.sample == x.sample && IsReplicate(y)
  {
    var ms := GetMeasurements(rows, dropNa);
    var replicated := Unique(Map(Filter(ms, IsReplicate), SampleOf));
    InMap(Filter(ms, IsReplicate), SampleOf);
    Filter(ms, SampleIn(replicated))
  }

  /** `get_types`: the sample types of the rows with a finite area, sorted, distinct. */
  function GetTypes(rows: seq<Row>): (r: seq<string>)
    ensures Ascending(r, StrLess)
    ensures forall t :: t in r <==> exists x :: x in rows && x.area.Some? && x.sampleType == t
  {
    var ms := GetMeasurements(rows, true);
    StrLessIsStrictTotal();
    SortedDistinctSpec(Map(ms, TypeOf), StrLess);
    InMap(ms, TypeOf);
    SortedDistinct(Map(ms, TypeOf), StrLess)
  }

  /** `get_batches`: the batches of the rows with a finite area, sorted, distinct. */
  function GetBatches(rows: seq<Row>): (r: seq<int>)
    ensures Ascending(r, IntLess)
    ensures forall b :: b in r <==> exists x :: x in rows && x.area.Some? && x.batch == b
  {
    var ms := GetMeasurements(rows, true);
    IntLessIsStrictTotal();
    SortedDistinctSpec(Map(ms, BatchOf), IntLess);
    InMap(ms, BatchOf);
    SortedDistinct(Map(ms, BatchOf), IntLess)
  }

  /** `get_compounds`: the compounds of the rows with a finite area, sorted, distinct. */
  function GetCompounds(rows: seq<Row>): (r: seq<string>)
    ensures Ascending(r, StrLess)
    ensures forall c :: c in r <==> exists x :: x in rows && x.area.Some? && x.compound == c
  {
    var ms := GetMeasurements(rows, true);
    StrLessIsStrictTotal();
    SortedDistinctSpec(Map(ms, CompoundOf), StrLess);
    InMap(ms, CompoundOf);
    SortedDistinct(Map(ms, CompoundOf), StrLess)
  }

  /** `get_internal_standards`: the internal standards of the rows with a finite
      area, sorted, distinct. */
  function GetInternalStandards(rows: seq<Row>): (r: seq<string>)
    ensures Ascending(r, StrLess)
    ensures forall c :: c in r <==> exists x :: x in rows && x.area.Some? && x.compoundIs == c
  {
    var ms := GetMeasurements(rows, true);
    StrLessIsStrictTotal();
    SortedDistinctSpec(Map(ms, CompoundIsOf), StrLess);
    InMap(ms, CompoundIsOf);
    SortedDistinct(Map(ms, CompoundIsOf), StrLess)
  }

  /** `get_samples`: the samples of the selected rows with a finite area, in order of
      first appearance. */
  function GetSamples(rows: seq<Row>, batch: Option<int>): (r: seq<string>)
    ensures Distinct(r)
    ensures forall s :: s in r <==>
              exists x :: x in rows && x.area.Some? && (Truthy(batch) ==> x.batch == batch.value) &&
                          x.sample == s
    ensures forall i, j :: 0 <= i < j < |r| ==>
              var appearing := Map(Selection(rows, batch, true), SampleOf);
              r[i] in appearing && r[j] in appearing && IndexOf(appearing, r[i]) < IndexOf(appearing, r[j])
  {
    var ms := Selection(rows, batch, true);
    InMap(ms, SampleOf);
    UniqueFirstAppearance(Map(ms, SampleOf));
    Unique(Map(ms, SampleOf))
  }

  /** pandas' `first()` on one column of a group: its first defined value. */
  function FirstDefined(xs: seq<Option<real>>): (r: Option<real>)
    ensures r.Some? <==> exists i :: 0 <= i < |xs| && xs[i].Some?
    ensures forall i :: 0 <= i < |xs| && xs[i].Some? && (forall j :: 0 <= j < i ==> xs[j].None?) ==>
              r == xs[i]
    decreases |xs|
  {
    if |xs| == 0 then None
    else if xs[0].Some? then xs[0]
    else
      assert forall i :: 1 <= i < |xs| ==> xs[i] == xs[1..][i - 1];
      FirstDefined(xs[1..])
  }

  function RatioOfRow(r: Row): Option<real> { r.ratio }
  function AreaIsOf(r: Row): Option<real> { r.areaIs }
  function CorrectedOf(r: Row): Option<real> { r.corrected }

  /** One row per aliquot group: each numeric column is the group's first defined value,
      the other columns come from the group's first row, and the label is `k`. */
  function GroupFirst(group: seq<Row>, k: nat): Row
    requires |group| > 0
  {
    group[0].(area := FirstDefined(Map(group, AreaOf)),
              areaIs := FirstDefined(Map(group, AreaIsOf)),
              ratio := FirstDefined(Map(group, RatioOfRow)),
              corrected := FirstDefined(Map(group, CorrectedOf)),
              index := k)
  }

  /** The selected rows that are normalised against `internalStandard`. */
  function InternalStandardRows(rows: seq<Row>, internalStandard: string, batch: Option<int>,
                                dropNa: bool): seq<Row>
  {
    Filter(Selection(rows, batch, dropNa), KeyIs(CompoundIsOf, internalStandard))
  }

  /** `get_internal_standard_data`: one row per aliquot of the internal standard's
      rows, the aliquots strictly ascending, the rows relabelled 0..k-1, and each
      area the first defined area of the aliquot's rows. */
  function GetInternalStandardData(rows: seq<Row>, internalStandard: string, batch: Option<int>,
                                   dropNa: bool): (r: seq<Row>)
    ensures Ascending(Map(r, AliquotOf), StrLess)
    ensures forall a :: a in Map(r, AliquotOf) <==>
              exists x :: x in InternalStandardRows(rows, internalStandard, batch, dropNa) && x.aliquot == a
    ensures forall k :: 0 <= k < |r| ==> r[k].compoundIs == internalStandard && r[k].index == k
    ensures forall k :: 0 <= k < |r| ==>
              (r[k].area.Some? <==>
                 exists x :: x in InternalStandardRows(rows, internalStandard, batch, dropNa) &&
                             x.aliquot == r[k].aliquot && x.area.Some?)
    ensures forall k :: 0 <= k < |r| ==>
              var g := Filter(InternalStandardRows(rows, internalStandard, batch, dropNa),
                              KeyIs(AliquotOf, r[k].aliquot));
              |g| > 0 && r[k] == GroupFirst(g, k)
  {
    var ms := InternalStandardRows(rows, internalStandard, batch, dropNa);
    StandardData(ms, internalStandard);
    AliquotGroups(ms, SortedDistinct(Map(ms, AliquotOf), StrLess))
  }

  /** The reduced groups of rows that all belong to one internal standard. */
  lemma StandardData(ms: seq<Row>, internalStandard: string)
    requires forall x :: x in ms ==> x.compoundIs == internalStandard
    ensures forall a :: a in SortedDistinct(Map(ms, AliquotOf), StrLess) ==>
              exists x :: x in ms && x.aliquot == a
    ensures var r := AliquotGroups(ms, SortedDistinct(Map(ms, AliquotOf), StrLess));
            Ascending(Map(r, AliquotOf), StrLess) &&
            (forall a :: a in Map(r, AliquotOf) <==> exists x :: x in ms && x.aliquot == a) &&
            (forall k :: 0 <= k < |r| ==> r[k].compoundIs == internalStandard && r[k].index == k) &&
            (forall k :: 0 <= k < |r| ==>
               (r[k].area.Some? <==> exists x :: x in ms && x.aliquot == r[k].aliquot && x.area.Some?)) &&
            forall k :: 0 <= k < |r| ==>
              var g := Filter(ms, KeyIs(AliquotOf, r[k].aliquot));
              |g| > 0 && r[k] == GroupFirst(g, k)
  {
    var aliquots := SortedDistinct(Map(ms, AliquotOf), StrLess);
    AliquotsOf(ms);
    StandardGroups(ms, aliquots, internalStandard);
  }

  /** The sorted distinct aliquots of `ms` are ascending and are exactly those of `ms`. */
  lemma AliquotsOf(ms: seq<Row>)
    ensures var aliquots := SortedDistinct(Map(ms, AliquotOf), StrLess);
            Ascending(aliquots, StrLess) &&
            forall a :: a in aliquots <==> exists x :: x in ms && x.aliquot == a
  {
    StrLessIsStrictTotal();
    SortedDistinctSpec(Map(ms, AliquotOf), StrLess);
    InMap(ms, AliquotOf);
  }

  /** The reduced groups of rows that all belong to one internal standard. */
  lemma StandardGroups(ms: seq<Row>, aliquots: seq<string>, internalStandard: string)
    requires forall a :: a in aliquots ==> exists x :: x in ms && x.aliquot == a
    requires forall x :: x in ms ==> x.compoundIs == internalStandard
    ensures var r := AliquotGroups(ms, aliquots);
            Map(r, AliquotOf) == aliquots &&
            (forall k :: 0 <= k < |r| ==> r[k].compoundIs == internalStandard && r[k].index == k) &&
            (forall k :: 0 <= k < |r| ==>
               (r[k].area.Some? <==> exists x :: x in ms && x.aliquot == r[k].aliquot && x.area.Some?)) &&
            forall k :: 0 <= k < |r| ==>
              var g := Filter(ms, KeyIs(AliquotOf, r[k].aliquot));
              |g| > 0 && r[k] == GroupFirst(g, k)
  {
    GroupFirstFacts(ms, aliquots);
  }

  /** The aliquots' groups of `ms`, each one reduced by `GroupFirst`. */
  function AliquotGroups(ms: seq<Row>, aliquots: seq<string>): (r: seq<Row>)
    requires forall a :: a in aliquots ==> exists x :: x in ms && x.aliquot == a
    ensures |r| == |aliquots|
  {
    seq(|aliquots|, k requires 0 <= k < |aliquots| =>
      assert aliquots[k] in aliquots;
      GroupFirst(Group(ms, aliquots[k]), k))
  }

  /** The rows of one aliquot, which must occur in `ms`. */
  function Group(ms: seq<Row>, aliquot: string): (g: seq<Row>)
    requires exists x :: x in ms && x.aliquot == aliquot
    ensures |g| > 0
    ensures forall x :: x in g <==> x in ms && x.aliquot == aliquot
  {
    var x :| x in ms && x.aliquot == aliquot;
    assert x in Filter(ms, KeyIs(AliquotOf, aliquot));
    Filter(ms, KeyIs(AliquotOf, aliquot))
  }

  /** A group's first defined area exists exactly when one of its rows has an area. */
  lemma FirstAreaDefined(g: seq<Row>)
    ensures FirstDefined(Map(g, AreaOf)).Some? <==> exists x :: x in g && x.area.Some?
  {
    var areas := Map(g, AreaOf);
    if FirstDefined(areas).Some? {
      var i :| 0 <= i < |areas| && areas[i].Some?;
      assert g[i] in g;
    }
    if exists x :: x in g && x.area.Some? {
      var x :| x in g && x.area.Some?;
      var i :| 0 <= i < |g| && g[i] == x;
      assert areas[i].Some?;
    }
  }

  /** The reduced row of one aliquot's group. */
  lemma GroupFirstFact(ms: seq<Row>, aliquot: string, k: nat)
    requires exists x :: x in ms && x.aliquot == aliquot
    ensures var r := GroupFirst(Group(ms, aliquot), k);
            r.aliquot == aliquot && r.index == k &&
            (exists x :: x in ms && x.compoundIs == r.compoundIs) &&
            (r.area.Some? <==> exists x :: x in ms && x.aliquot == aliquot && x.area.Some?)
  {
    var g := Group(ms, aliquot);
    assert g[0] in g;
    FirstAreaDefined(g);
  }

  lemma GroupFirstFacts(ms: seq<Row>, aliquots: seq<string>)
    requires forall a :: a in aliquots ==> exists x :: x in ms && x.aliquot == a
    ensures Map(AliquotGroups(ms, aliquots), AliquotOf) == aliquots
    ensures forall k :: 0 <= k < |aliquots| ==>
              var r := AliquotGroups(ms, aliquots);
              (r[k].area.Some? <==> exists x :: x in ms && x.aliquot == r[k].aliquot && x.area.Some?) &&
              r[k].index == k && exists x :: x in ms && x.compoundIs == r[k].compoundIs
    ensures forall k :: 0 <= k < |aliquots| ==>
              var r := AliquotGroups(ms, aliquots);
              var g := Filter(ms, KeyIs(AliquotOf, r[k].aliquot));
              |g| > 0 && r[k] == GroupFirst(g, k)
  {
    var r := AliquotGroups(ms, aliquots);
    forall k | 0 <= k < |aliquots|
      ensures r[k].aliquot == aliquots[k] && r[k].index == k
      ensures exists x :: x in ms && x.compoundIs == r[k].compoundIs
      ensures r[k].area.Some? <==> exists x :: x in ms && x.aliquot == r[k].aliquot && x.area.Some?
    {
      assert aliquots[k] in aliquots;
      assert r[k] == GroupFirst(Group(ms, aliquots[k]), k);
      GroupFirstFact(ms, aliquots[k], k);
    }
  }


  // ---------------------------------------------------------------------------
  // The sample-by-compound data matrix

  /** The column `as_table` reads. `Missing` names a column the table does not have. */
  datatype Column = Area | AreaIs | Ratio | Rt | Corrected | BatchNumber | InjectionOrder | Position | Missing(name: string)

  /** A row's value in `column`, or `None` when the table has no such column. */
  function Lookup(x: Row, column: Column, hasCorrected: bool): Option<Option<real>> {
    match column
    case Area => Some(x.area)
    case AreaIs => Some(x.areaIs)
    case Ratio => Some(x.ratio)
    case Rt => Some(Some(x.rt))
    case Corrected => if hasCorrected then Some(x.corrected) else None
    case BatchNumber => Some(Some(x.batch as real))
    case InjectionOrder => Some(Some(x.order as real))
    case Position => Some(Some(x.position as real))
    case Missing(_) => None
  }

  /** Selects the rows of one cell of the matrix. */
  function AtCell(batch: int, sample: string, compound: string): Row -> bool {
    (x: Row) => x.batch == batch && x.sample == sample && x.compound == compound
  }

  /** `ms[i]` is the first row of `ms` that `p` selects. */
  predicate FirstMatch(ms: seq<Row>, p: Row -> bool, i: int) {
    0 <= i < |ms| && p(ms[i]) && forall j :: 0 <= j < i ==> !p(ms[j])
  }

  lemma FirstOfFilter(ms: seq<Row>, p: Row -> bool, i: int)
    requires FirstMatch(ms, p, i)
    ensures |Filter(ms, p)| > 0 && Filter(ms, p)[0] == ms[i]
  {
    assert ms[i] in Filter(ms, p);
    FilterFirst(ms, p);
    var i0 :| 0 <= i0 < |ms| && ms[i0] == Filter(ms, p)[0] && p(ms[i0]) &&
              forall j :: 0 <= j < i0 ==> !p(ms[j]);
    assert i0 == i;
  }

  /** A cell of the matrix: the column's value in the cell's first row, and 0.0 when
      the cell has no row or the table has no such column. */
  function Cell(ms: seq<Row>, batch: int, sample: string, compound: string, column: Column,
                hasCorrected: bool): (v: Option<real>)
    ensures (forall x :: x in ms ==> !AtCell(batch, sample, compound)(x)) ==> v == Some(0.0)
    ensures forall i :: FirstMatch(ms, AtCell(batch, sample, compound), i) ==>
              v == match Lookup(ms[i], column, hasCorrected)
                   case None => Some(0.0)
                   case Some(value) => value
  {
    var matches := Filter(ms, AtCell(batch, sample, compound));
    FirstOfFilterAll(ms, AtCell(batch, sample, compound));
    assert |matches| > 0 ==> matches[0] in matches;
    if |matches| == 0 then Some(0.0)
    else
      match Lookup(matches[0], column, hasCorrected)
      case None => Some(0.0)
      case Some(value) => value
  }

  /** The cell's internal-standard area: that of its first row, and 0.0 when it has none. */
  function CellIs(ms: seq<Row>, batch: int, sample: string, compound: string): (v: Option<real>)
    ensures (forall x :: x in ms ==> !AtCell(batch, sample, compound)(x)) ==> v == Some(0.0)
    ensures forall i :: FirstMatch(ms, AtCell(batch, sample, compound), i) ==> v == ms[i].areaIs
  {
    var matches := Filter(ms, AtCell(batch, sample, compound));
    FirstOfFilterAll(ms, AtCell(batch, sample, compound));
    assert |matches| > 0 ==> matches[0] in matches;
    if |matches| == 0 then Some(0.0) else matches[0].areaIs
  }

  lemma FirstOfFilterAll(ms: seq<Row>, p: Row -> bool)
    ensures forall i :: FirstMatch(ms, p, i) ==> |Filter(ms, p)| > 0 && Filter(ms, p)[0] == ms[i]
  {
    forall i | FirstMatch(ms, p, i) ensures |Filter(ms, p)| > 0 && Filter(ms, p)[0] == ms[i] {
      FirstOfFilter(ms, p, i);
    }
  }

  /** Where compound `j`'s column sits among the compound columns. */
  function Slot(j: int, includeIs: bool): int {
    if includeIs then 2 * j else j
  }

  /** One entry per compound, each followed by a second one when `includeIs`: the
      layout of the compound columns of `as_table`. */
  function Layout<T>(compounds: seq<string>, f: string -> T, g: string -> T, includeIs: bool): (v: seq<T>)
    ensures |v| == Slot(|compounds|, includeIs)
    ensures forall j :: 0 <= j < |compounds| ==>
              v[Slot(j, includeIs)] == f(compounds[j]) &&
              (includeIs ==> v[Slot(j, includeIs) + 1] == g(compounds[j]))
    decreases |compounds|
  {
    if |compounds| == 0 then []
    else
      var c := compounds[|compounds| - 1];
      Layout(compounds[..|compounds| - 1], f, g, includeIs) + [f(c)] + (if includeIs then [g(c)] else [])
  }

  lemma LayoutSnoc<T>(compounds: seq<string>, c: string, f: string -> T, g: string -> T, includeIs: bool)
    ensures Layout(compounds + [c], f, g, includeIs) ==
            Layout(compounds, f, g, includeIs) + [f(c)] + (if includeIs then [g(c)] else [])
  {
    assert (compounds + [c])[..|compounds|] == compounds;
  }

  function ColumnName(c: string): string { c }
  function IsColumnName(c: string): string { c + "_IS" }

  function CellOf(ms: seq<Row>, batch: int, sample: string, column: Column,
                  hasCorrected: bool): string -> Option<real> {
    c => Cell(ms, batch, sample, c, column, hasCorrected)
  }

  function CellIsOf(ms: seq<Row>, batch: int, sample: string): string -> Option<real> {
    c => CellIs(ms, batch, sample, c)
  }

  datatype MatrixRow = MatrixRow(sample: string, batch: int, values: seq<Option<real>>)

  /** A data matrix: the header `sample, batch, <compound columns>` and its rows. */
  datatype Matrix = Matrix(header: seq<string>, rows: seq<MatrixRow>)

  /** The rows of one batch: one per sample, in the order of `samples`. */
  function BatchRows(batch: int, samples: seq<string>, rowOf: (int, string) -> MatrixRow): (r: seq<MatrixRow>)
    ensures |r| == |samples|
    ensures forall k :: 0 <= k < |samples| ==> r[k] == rowOf(batch, samples[k])
  {
    seq(|samples|, k requires 0 <= k < |samples| => rowOf(batch, samples[k]))
  }

  lemma BatchRowsSnoc(batch: int, samples: seq<string>, s: string, rowOf: (int, string) -> MatrixRow)
    ensures BatchRows(batch, samples + [s], rowOf) == BatchRows(batch, samples, rowOf) + [rowOf(batch, s)]
  {
  }

  /** The rows for `batches`, batch after batch. */
  function MatrixRows(batches: seq<int>, samplesOf: int -> seq<string>,
                      rowOf: (int, string) -> MatrixRow): seq<MatrixRow>
    decreases |batches|
  {
    if |batches| == 0 then []
    else
      var b := batches[|batches| - 1];
      MatrixRows(batches[..|batches| - 1], samplesOf, rowOf) + BatchRows(b, samplesOf(b), rowOf)
  }

  lemma MatrixRowsSnoc(batches: seq<int>, b: int, samplesOf: int -> seq<string>,
                       rowOf: (int, string) -> MatrixRow)
    ensures MatrixRows(batches + [b], samplesOf, rowOf) ==
            MatrixRows(batches, samplesOf, rowOf) + BatchRows(b, samplesOf(b), rowOf)
  {
    assert (batches + [b])[..|batches|] == batches;
  }

  /** The samples `get_samples` lists for a batch. */
  function SamplesOf(rows: seq<Row>): int -> seq<string> {
    b => GetSamples(rows, Some(b))
  }

  /** The matrix row of one (batch, sample) pair: the pair and its cells. */
  function RowOf(ms: seq<Row>, compounds: seq<string>, column: Column, hasCorrected: bool,
                 includeIs: bool): (int, string) -> MatrixRow {
    (b, s) => MatrixRow(s, b, Layout(compounds, CellOf(ms, b, s, column, hasCorrected),
                                     CellIsOf(ms, b, s), includeIs))
  }

  /** The matrix row of (batch, sample) is labelled with that batch and sample. */
  lemma RowOfKeyed(ms: seq<Row>, compounds: seq<string>, column: Column, hasCorrected: bool,
                   includeIs: bool)
    ensures forall b, s :: RowOf(ms, compounds, column, hasCorrected, includeIs)(b, s).batch == b &&
                           RowOf(ms, compounds, column, hasCorrected, includeIs)(b, s).sample == s
  {
  }

  /** The matrix `as_table` returns for a table. */
  function Pivot(rows: seq<Row>, hasCorrected: bool, column: Column, includeIs: bool): Matrix {
    var compounds := GetCompounds(rows);
    Matrix(["sample", "batch"] + Layout(compounds, ColumnName, IsColumnName, includeIs),
           MatrixRows(GetBatches(rows), SamplesOf(rows),
                      RowOf(GetMeasurements(rows, true), compounds, column, hasCorrected, includeIs)))
  }

  /** Every row of `r` is the row of a batch of `batches` and one of its samples. */
  predicate RowsDrawnFrom(r: seq<MatrixRow>, batches: seq<int>, samplesOf: int -> seq<string>,
                          rowOf: (int, string) -> MatrixRow) {
    forall k :: 0 <= k < |r| ==>
      r[k].batch in batches && r[k].sample in samplesOf(r[k].batch) &&
      r[k] == rowOf(r[k].batch, r[k].sample)
  }

  /** Every batch of `batches` and sample of that batch has a row in `r`. */
  predicate RowsCover(r: seq<MatrixRow>, batches: seq<int>, samplesOf: int -> seq<string>) {
    forall b, s :: b in batches && s in samplesOf(b) ==>
      exists k :: 0 <= k < |r| && r[k].batch == b && r[k].sample == s
  }

  predicate BatchesAscending(r: seq<MatrixRow>) {
    forall i, j :: 0 <= i < j < |r| ==> r[i].batch <= r[j].batch
  }

  lemma {:induction false} MatrixRowsDrawn(batches: seq<int>, samplesOf: int -> seq<string>,
                                           rowOf: (int, string) -> MatrixRow)
    requires forall b, s :: rowOf(b, s).batch == b && rowOf(b, s).sample == s
    ensures RowsDrawnFrom(MatrixRows(batches, samplesOf, rowOf), batches, samplesOf, rowOf)
    decreases |batches|
  {
    if |batches| > 0 {
      var pre, b := batches[..|batches| - 1], batches[|batches| - 1];
      MatrixRowsDrawn(pre, samplesOf, rowOf);
      var r1 := MatrixRows(pre, samplesOf, rowOf);
      var samples := samplesOf(b);
      var r2 := BatchRows(b, samples, rowOf);
      var r := r1 + r2;
      assert MatrixRows(batches, samplesOf, rowOf) == r;
      forall k | 0 <= k < |r|
        ensures r[k].batch in batches && r[k].sample in samplesOf(r[k].batch)
        ensures r[k] == rowOf(r[k].batch, r[k].sample)
      {
        if k < |r1| {
          assert r[k] == r1[k];
          assert r1[k].batch in pre;
          var q :| 0 <= q < |pre| && pre[q] == r1[k].batch;
          assert batches[q] == pre[q];
        } else {
          assert r[k] == r2[k - |r1|] == rowOf(b, samples[k - |r1|]);
          assert samples[k - |r1|] in samples;
        }
      }
    }
  }

  lemma {:induction false} MatrixRowsCover(batches: seq<int>, samplesOf: int -> seq<string>,
                                           rowOf: (int, string) -> MatrixRow)
    requires forall b, s :: rowOf(b, s).batch == b && rowOf(b, s).sample == s
    ensures RowsCover(MatrixRows(batches, samplesOf, rowOf), batches, samplesOf)
    decreases |batches|
  {
    if |batches| > 0 {
      var pre, b := batches[..|batches| - 1], batches[|batches| - 1];
      MatrixRowsCover(pre, samplesOf, rowOf);
      var r1 := MatrixRows(pre, samplesOf, rowOf);
      var samples := samplesOf(b);
      var r2 := BatchRows(b, samples, rowOf);
      var r := r1 + r2;
      assert MatrixRows(batches, samplesOf, rowOf) == r;
      forall b', s | b' in batches && s in samplesOf(b')
        ensures exists k :: 0 <= k < |r| && r[k].batch == b' && r[k].sample == s
      {
        var q :| 0 <= q < |batches| && batches[q] == b';
        if q < |pre| {
          assert pre[q] == b';
          var k :| 0 <= k < |r1| && r1[k].batch == b' && r1[k].sample == s;
          assert r[k] == r1[k];
        } else {
          assert b' == b;
          var k :| 0 <= k < |samples| && samples[k] == s;
          assert r[|r1| + k] == r2[k];
        }
      }
    }
  }

  /** Every row of `MatrixRows` is the row of a batch of `batches` and one of that
      batch's samples, and every such pair has a row. */
  lemma MatrixRowsSpec(batches: seq<int>, samplesOf: int -> seq<string>,
                       rowOf: (int, string) -> MatrixRow)
    requires forall b, s :: rowOf(b, s).batch == b && rowOf(b, s).sample == s
    ensures RowsDrawnFrom(MatrixRows(batches, samplesOf, rowOf), batches, samplesOf, rowOf)
    ensures RowsCover(MatrixRows(batches, samplesOf, rowOf), batches, samplesOf)
  {
    MatrixRowsDrawn(batches, samplesOf, rowOf);
    MatrixRowsCover(batches, samplesOf, rowOf);
  }

  /** For ascending batches, the rows come in ascending batch order. */
  lemma {:induction false} MatrixRowsAscending(batches: seq<int>, samplesOf: int -> seq<string>,
                                               rowOf: (int, string) -> MatrixRow)
    requires Ascending(batches, IntLess)
    requires forall b, s :: rowOf(b, s).batch == b && rowOf(b, s).sample == s
    ensures BatchesAscending(MatrixRows(batches, samplesOf, rowOf))
    decreases |batches|
  {
    if |batches| > 0 {
      var pre, b := batches[..|batches| - 1], batches[|batches| - 1];
      MatrixRowsAscending(pre, samplesOf, rowOf);
      MatrixRowsSpec(pre, samplesOf, rowOf);
      var r1 := MatrixRows(pre, samplesOf, rowOf);
      var r2 := BatchRows(b, samplesOf(b), rowOf);
      var r := r1 + r2;
      assert MatrixRows(batches, samplesOf, rowOf) == r;
      forall i, j | 0 <= i < j < |r| ensures r[i].batch <= r[j].batch {
        if j >= |r1| {
          assert r[j] == r2[j - |r1|] && r[j].batch == b;
          if i < |r1| {
            assert r[i] == r1[i];
            assert r1[i].batch in pre;
            var q :| 0 <= q < |pre| && pre[q] == r1[i].batch;
            assert batches[q] == pre[q];
            assert IntLess(batches[q], batches[|batches| - 1]);
          } else {
            assert r[i] == r2[i - |r1|] && r[i].batch == b;
          }
        } else {
          assert r[i] == r1[i] && r[j] == r1[j];
        }
      }
    }
  }

  /** No (batch, sample) pair has two rows in `r`. */
  predicate PairsOnce(r: seq<MatrixRow>) {
    forall i, j :: 0 <= i < j < |r| ==> r[i].batch != r[j].batch || r[i].sample != r[j].sample
  }

  /** For strictly ascending batches and duplicate-free sample lists, no
      (batch, sample) pair has two rows. */
  lemma {:induction false} MatrixRowsOnce(batches: seq<int>, samplesOf: int -> seq<string>,
                                          rowOf: (int, string) -> MatrixRow)
    requires Ascending(batches, IntLess)
    requires forall b :: Distinct(samplesOf(b))
    requires forall b, s :: rowOf(b, s).batch == b && rowOf(b, s).sample == s
    ensures PairsOnce(MatrixRows(batches, samplesOf, rowOf))
    decreases |batches|
  {
    if |batches| > 0 {
      var pre, b := batches[..|batches| - 1], batches[|batches| - 1];
      MatrixRowsOnce(pre, samplesOf, rowOf);
      MatrixRowsDrawn(pre, samplesOf, rowOf);
      var r1 := MatrixRows(pre, samplesOf, rowOf);
      var samples := samplesOf(b);
      var r2 := BatchRows(b, samples, rowOf);
      var r := r1 + r2;
      assert MatrixRows(batches, samplesOf, rowOf) == r;
      forall i, j | 0 <= i < j < |r| ensures r[i].batch != r[j].batch || r[i].sample != r[j].sample {
        if i < |r1| && j < |r1| {
          assert r[i] == r1[i] && r[j] == r1[j];
        } else if i < |r1| {
          assert r[i] == r1[i] && r[j] == r2[j - |r1|];
          assert r1[i].batch in pre;
          BatchBefore(batches, r1[i].batch);
          assert r[j].batch == b;
        } else {
          var p, q := i - |r1|, j - |r1|;
          assert r[i] == r2[p] && r[j] == r2[q];
          assert Distinct(samples);
          assert r2[p].sample == samples[p] && r2[q].sample == samples[q];
          assert samples[p] != samples[q];
        }
      }
    }
  }

  /** A batch of all but the last of strictly ascending batches differs from the last. */
  lemma BatchBefore(batches: seq<int>, b: int)
    requires Ascending(batches, IntLess) && |batches| > 0
    requires b in batches[..|batches| - 1]
    ensures b != batches[|batches| - 1]
  {
    var q :| 0 <= q < |batches| - 1 && batches[..|batches| - 1][q] == b;
    assert batches[q] == b;
  }

  /** The rows of one batch in `r` come in the order of that batch's sample list. */
  predicate RowsFollowSamples(r: seq<MatrixRow>, samplesOf: int -> seq<string>) {
    forall i, j :: 0 <= i < j < |r| && r[i].batch == r[j].batch ==>
      var samples := samplesOf(r[i].batch);
      r[i].sample in samples && r[j].sample in samples &&
      IndexOf(samples, r[i].sample) < IndexOf(samples, r[j].sample)
  }

  /** For strictly ascending batches and duplicate-free sample lists, the rows of
      one batch come in the order of that batch's sample list. */
  lemma {:induction false} MatrixRowsSampleOrder(batches: seq<int>, samplesOf: int -> seq<string>,
                                                 rowOf: (int, string) -> MatrixRow)
    requires Ascending(batches, IntLess)
    requires forall b :: Distinct(samplesOf(b))
    requires forall b, s :: rowOf(b, s).batch == b && rowOf(b, s).sample == s
    ensures RowsFollowSamples(MatrixRows(batches, samplesOf, rowOf), samplesOf)
    decreases |batches|
  {
    if |batches| > 0 {
      var pre, b := batches[..|batches| - 1], batches[|batches| - 1];
      MatrixRowsSampleOrder(pre, samplesOf, rowOf);
      MatrixRowsDrawn(pre, samplesOf, rowOf);
      var r1 := MatrixRows(pre, samplesOf, rowOf);
      var samples := samplesOf(b);
      var r2 := BatchRows(b, samples, rowOf);
      var r := r1 + r2;
      assert MatrixRows(batches, samplesOf, rowOf) == r;
      forall i, j | 0 <= i < j < |r| && r[i].batch == r[j].batch
        ensures r[i].sample in samplesOf(r[i].batch) && r[j].sample in samplesOf(r[i].batch)
        ensures IndexOf(samplesOf(r[i].batch), r[i].sample) < IndexOf(samplesOf(r[i].batch), r[j].sample)
      {
        if i < |r1| && j < |r1| {
          assert r[i] == r1[i] && r[j] == r1[j];
        } else if i < |r1| {
          assert r[i] == r1[i] && r[j] == r2[j - |r1|];
          assert r1[i].batch in pre;
          BatchBefore(batches, r1[i].batch);
          assert false;
        } else {
          var p, q := i - |r1|, j - |r1|;
          assert r[i] == r2[p] && r[j] == r2[q];
          assert samples[p] in samples && samples[q] in samples && Distinct(samples);
          IndexOfDistinct(samples, p);
          IndexOfDistinct(samples, q);
        }
      }
    }
  }

  /** The matrix has a row for (sample, batch). */
  predicate HasMatrixRow(m: Matrix, batch: int, sample: string) {
    exists k :: 0 <= k < |m.rows| && m.rows[k].batch == batch && m.rows[k].sample == sample
  }

  /** The table has a row of `sample` in `batch` with a finite area. */
  predicate Measured(rows: seq<Row>, batch: int, sample: string) {
    exists x :: x in rows && x.area.Some? && x.batch == batch && x.sample == sample
  }

  /** The header of `as_table`: `sample`, `batch`, then every compound in ascending
      order, each followed by its `_IS` column when `includeIs`. */
  lemma PivotHeader(rows: seq<Row>, hasCorrected: bool, column: Column, includeIs: bool)
    ensures var h := Pivot(rows, hasCorrected, column, includeIs).header;
            var cs := GetCompounds(rows);
            |h| == 2 + Slot(|cs|, includeIs) && h[0] == "sample" && h[1] == "batch" &&
            forall j :: 0 <= j < |cs| ==>
              h[2 + Slot(j, includeIs)] == cs[j] &&
              (includeIs ==> h[2 + Slot(j, includeIs) + 1] == cs[j] + "_IS")
  {
  }

  /** The cells of one (batch, sample) pair, laid out as the compound columns. */
  predicate HoldsCells(p: MatrixRow, ms: seq<Row>, compounds: seq<string>, column: Column,
                       hasCorrected: bool, includeIs: bool) {
    |p.values| == Slot(|compounds|, includeIs) &&
    forall j :: 0 <= j < |compounds| ==>
      p.values[Slot(j, includeIs)] == Cell(ms, p.batch, p.sample, compounds[j], column, hasCorrected) &&
      (includeIs ==> p.values[Slot(j, includeIs) + 1] == CellIs(ms, p.batch, p.sample, compounds[j]))
  }

  lemma RowOfHoldsCells(ms: seq<Row>, compounds: seq<string>, column: Column, hasCorrected: bool,
                        includeIs: bool, b: int, s: string)
    ensures HoldsCells(RowOf(ms, compounds, column, hasCorrected, includeIs)(b, s), ms, compounds,
                       column, hasCorrected, includeIs)
  {
    var f, g := CellOf(ms, b, s, column, hasCorrected), CellIsOf(ms, b, s);
    var v := Layout(compounds, f, g, includeIs);
    assert forall j :: 0 <= j < |compounds| ==> v[Slot(j, includeIs)] == f(compounds[j]);
  }

  /** Each row of the matrix holds, for every compound, the cell of the row's sample
      and batch (the first matching row's value, or 0.0), followed by the cell's
      internal-standard area when `includeIs`. */
  lemma PivotCells(rows: seq<Row>, hasCorrected: bool, column: Column, includeIs: bool)
    ensures forall p :: p in Pivot(rows, hasCorrected, column, includeIs).rows ==>
              HoldsCells(p, GetMeasurements(rows, true), GetCompounds(rows), column, hasCorrected, includeIs)
  {
    MatrixCells(GetMeasurements(rows, true), GetCompounds(rows), column, hasCorrected, includeIs,
                GetBatches(rows), SamplesOf(rows));
  }

  lemma MatrixCells(ms: seq<Row>, cs: seq<string>, column: Column, hasCorrected: bool, includeIs: bool,
                    batches: seq<int>, samplesOf: int -> seq<string>)
    ensures forall p :: p in MatrixRows(batches, samplesOf, RowOf(ms, cs, column, hasCorrected, includeIs)) ==>
              HoldsCells(p, ms, cs, column, hasCorrected, includeIs)
  {
    var rowOf := RowOf(ms, cs, column, hasCorrected, includeIs);
    RowOfKeyed(ms, cs, column, hasCorrected, includeIs);
    MatrixRowsSpec(batches, samplesOf, rowOf);
    var r := MatrixRows(batches, samplesOf, rowOf);
    forall p | p in r ensures HoldsCells(p, ms, cs, column, hasCorrected, includeIs) {
      var k :| 0 <= k < |r| && r[k] == p;
      assert p == rowOf(p.batch, p.sample);
      RowOfHoldsCells(ms, cs, column, hasCorrected, includeIs, p.batch, p.sample);
    }
  }

  /** The rows of the matrix come in ascending batch order. */
  lemma PivotBatchOrder(rows: seq<Row>, hasCorrected: bool, column: Column, includeIs: bool)
    ensures BatchesAscending(Pivot(rows, hasCorrected, column, includeIs).rows)
  {
    var rowOf := RowOf(GetMeasurements(rows, true), GetCompounds(rows), column, hasCorrected, includeIs);
    RowOfKeyed(GetMeasurements(rows, true), GetCompounds(rows), column, hasCorrected, includeIs);
    MatrixRowsAscending(GetBatches(rows), SamplesOf(rows), rowOf);
  }

  /** For a nonzero batch, the matrix has a row for (sample, batch) exactly when the
      table has a row of that sample in that batch with a finite area. */
  lemma PivotRowKeys(rows: seq<Row>, hasCorrected: bool, column: Column, includeIs: bool)
    ensures forall b, s :: b != 0 ==>
              (HasMatrixRow(Pivot(rows, hasCorrected, column, includeIs), b, s) <==> Measured(rows, b, s))
  {
    var m := Pivot(rows, hasCorrected, column, includeIs);
    var bs := GetBatches(rows);
    var rowOf := RowOf(GetMeasurements(rows, true), GetCompounds(rows), column, hasCorrected, includeIs);
    RowOfKeyed(GetMeasurements(rows, true), GetCompounds(rows), column, hasCorrected, includeIs);
    MatrixRowsSpec(bs, SamplesOf(rows), rowOf);
    forall b, s | b != 0 && Measured(rows, b, s) ensures HasMatrixRow(m, b, s) {
      assert b in bs && s in SamplesOf(rows)(b);
    }
    forall b, s | b != 0 && HasMatrixRow(m, b, s) ensures Measured(rows, b, s) {
      var k :| 0 <= k < |m.rows| && m.rows[k].batch == b && m.rows[k].sample == s;
      assert s in SamplesOf(rows)(b);
    }
  }

  lemma SamplesDistinct(rows: seq<Row>)
    ensures forall b :: Distinct(SamplesOf(rows)(b))
  {
    forall b ensures Distinct(SamplesOf(rows)(b)) {
      var u := GetSamples(rows, Some(b));
    }
  }

  /** No (batch, sample) pair has two rows in the matrix. */
  lemma PivotRowsOnce(rows: seq<Row>, hasCorrected: bool, column: Column, includeIs: bool)
    ensures PairsOnce(Pivot(rows, hasCorrected, column, includeIs).rows)
  {
    var rowOf := RowOf(GetMeasurements(rows, true), GetCompounds(rows), column, hasCorrected, includeIs);
    RowOfKeyed(GetMeasurements(rows, true), GetCompounds(rows), column, hasCorrected, includeIs);
    SamplesDistinct(rows);
    MatrixRowsOnce(GetBatches(rows), SamplesOf(rows), rowOf);
  }

  /** Within one batch, the matrix lists the samples in the order in which they
      first appear among that batch's rows with a finite area (for batch 0, among
      all rows with a finite area). */
  lemma PivotSampleOrder(rows: seq<Row>, hasCorrected: bool, column: Column, includeIs: bool)
    ensures var r := Pivot(rows, hasCorrected, column, includeIs).rows;
            forall i, j :: 0 <= i < j < |r| && r[i].batch == r[j].batch ==>
              var appearing := Map(Selection(rows, Some(r[i].batch), true), SampleOf);
              r[i].sample in appearing && r[j].sample in appearing &&
              IndexOf(appearing, r[i].sample) < IndexOf(appearing, r[j].sample)
  {
    var rowOf := RowOf(GetMeasurements(rows, true), GetCompounds(rows), column, hasCorrected, includeIs);
    RowOfKeyed(GetMeasurements(rows, true), GetCompounds(rows), column, hasCorrected, includeIs);
    SamplesDistinct(rows);
    MatrixRowsSampleOrder(GetBatches(rows), SamplesOf(rows), rowOf);
    FirstAppearanceOrder(rows, MatrixRows(GetBatches(rows), SamplesOf(rows), rowOf));
  }

  /** Rows that follow `get_samples`' lists follow the first appearances. */
  lemma FirstAppearanceOrder(rows: seq<Row>, r: seq<MatrixRow>)
    requires RowsFollowSamples(r, SamplesOf(rows))
    ensures forall i, j :: 0 <= i < j < |r| && r[i].batch == r[j].batch ==>
              var appearing := Map(Selection(rows, Some(r[i].batch), true), SampleOf);
              r[i].sample in appearing && r[j].sample in appearing &&
              IndexOf(appearing, r[i].sample) < IndexOf(appearing, r[j].sample)
  {
    forall i, j | 0 <= i < j < |r| && r[i].batch == r[j].batch
      ensures var appearing := Map(Selection(rows, Some(r[i].batch), true), SampleOf);
              r[i].sample in appearing && r[j].sample in appearing &&
              IndexOf(appearing, r[i].sample) < IndexOf(appearing, r[j].sample)
    {
      var u := GetSamples(rows, Some(r[i].batch));
      assert u == SamplesOf(rows)(r[i].batch);
      var p, q := IndexOf(u, r[i].sample), IndexOf(u, r[j].sample);
      assert 0 <= p < q < |u| && u[p] == r[i].sample && u[q] == r[j].sample;
    }
  }

  /** Lays out the compound columns one compound at a time. */
  method LayoutOf<T>(compounds: seq<string>, f: string -> T, g: string -> T, includeIs: bool)
    returns (values: seq<T>)
    ensures values == Layout(compounds, f, g, includeIs)
  {
    values := [];
    var ci := 0;
    while ci < |compounds|
      invariant 0 <= ci <= |compounds|
      invariant values == Layout(compounds[..ci], f, g, includeIs)
    {
      var c := compounds[ci];
      assert compounds[..ci + 1] == compounds[..ci] + [c];
      LayoutSnoc(compounds[..ci], c, f, g, includeIs);
      ghost var before := values;
      values := values + [f(c)];
      if includeIs {
        values := values + [g(c)];
      }
      assert values == before + [f(c)] + (if includeIs then [g(c)] else []);
      ci := ci + 1;
    }
    assert compounds[..ci] == compounds;
  }

  /** The row of one sample and batch of the data matrix. */
  method MatrixRowOf(ms: seq<Row>, batch: int, sample: string, compounds: seq<string>,
                     column: Column, hasCorrected: bool, includeIs: bool) returns (row: MatrixRow)
    ensures row == RowOf(ms, compounds, column, hasCorrected, includeIs)(batch, sample)
  {
    var values := LayoutOf(compounds, CellOf(ms, batch, sample, column, hasCorrected),
                           CellIsOf(ms, batch, sample), includeIs);
    row := MatrixRow(sample, batch, values);
  }

  /** The rows of one batch of the data matrix, sample by sample. */
  method BatchRowsOf(ms: seq<Row>, batch: int, samples: seq<string>, compounds: seq<string>,
                     column: Column, hasCorrected: bool, includeIs: bool) returns (r: seq<MatrixRow>)
    ensures r == BatchRows(batch, samples, RowOf(ms, compounds, column, hasCorrected, includeIs))
  {
    var rowOf := RowOf(ms, compounds, column, hasCorrected, includeIs);
    r := [];
    var si := 0;
    while si < |samples|
      invariant 0 <= si <= |samples|
      invariant r == BatchRows(batch, samples[..si], rowOf)
    {
      var sample := samples[si];
      var row := MatrixRowOf(ms, batch, sample, compounds, column, hasCorrected, includeIs);
      assert samples[..si + 1] == samples[..si] + [sample];
      BatchRowsSnoc(batch, samples[..si], sample, rowOf);
      r := r + [row];
      si := si + 1;
    }
    assert samples[..si] == samples;
  }

  /** The data matrix batch by batch, each batch's samples listed by `samplesOf`. */
  method MatrixRowsOf(ms: seq<Row>, batches: seq<int>, samplesOf: int -> seq<string>,
                      compounds: seq<string>, column: Column, hasCorrected: bool, includeIs: bool)
    returns (out: seq<MatrixRow>)
    ensures out == MatrixRows(batches, samplesOf, RowOf(ms, compounds, column, hasCorrected, includeIs))
  {
    ghost var rowOf := RowOf(ms, compounds, column, hasCorrected, includeIs);
    out := [];
    var bi := 0;
    while bi < |batches|
      invariant 0 <= bi <= |batches|
      invariant out == MatrixRows(batches[..bi], samplesOf, rowOf)
    {
      var batch := batches[bi];
      var batchRows := BatchRowsOf(ms, batch, samplesOf(batch), compounds, column, hasCorrected, includeIs);
      assert batches[..bi + 1] == batches[..bi] + [batch];
      MatrixRowsSnoc(batches[..bi], batch, samplesOf, rowOf);
      out := out + batchRows;
      bi := bi + 1;
    }
    assert batches[..bi] == batches;
  }

  // ---------------------------------------------------------------------------
  // The table object

  /** The measurement table. `hasCorrected` records whether the table has the
      `inter_median_qc_corrected` column. */
  class Mea {
    var measurements: seq<Row>
    var hasCorrected: bool

    /** `Mea()` without a file: an empty table. */
    constructor ()
      ensures measurements == [] && !hasCorrected
    {
      measurements := [];
      hasCorrected := false;
    }

    /** `Mea(mea_file)`: a table loaded from the file's rows. */
    constructor FromFile(raw: seq<RawRow>, hasCorrectedColumn: bool)
      ensures measurements == LoadAsWritten(raw, hasCorrectedColumn) && hasCorrected == hasCorrectedColumn
    {
      new;
      ReadMeaFile(raw, hasCorrectedColumn);
    }

    /** `read_mea_file`: replaces the table by the file's rows with the derived
        columns, sorted by `(batch, order)`, `position` being the file row number
        plus one. */
    method ReadMeaFile(raw: seq<RawRow>, hasCorrectedColumn: bool)
      modifies this
      ensures measurements == LoadAsWritten(raw, hasCorrectedColumn) && hasCorrected == hasCorrectedColumn
    {
      measurements := ReadRows(raw, hasCorrectedColumn);
      hasCorrected := hasCorrectedColumn;
      measurements := FixNames(measurements);
      measurements := WithRatios(measurements);
      measurements := SortByBatchOrder(measurements);
      measurements := WithPositions(measurements);
    }

    /** `set_measurements`. */
    method SetMeasurements(frame: Frame)
      modifies this
      ensures measurements == frame.rows && hasCorrected == frame.hasCorrected
    {
      measurements := frame.rows;
      hasCorrected := frame.hasCorrected;
    }

    /** `as_table` without a file location: the header, then the data matrix batch
        by batch. */
    method AsTable(column: Column, includeIs: bool) returns (m: Matrix)
      ensures m == Pivot(measurements, hasCorrected, column, includeIs)
    {
      var compounds := GetCompounds(measurements);
      var names := LayoutOf(compounds, ColumnName, IsColumnName, includeIs);
      var header := ["sample", "batch"] + names;
      var ms := GetMeasurements(measurements, true);
      var batches := GetBatches(measurements);
      var out := MatrixRowsOf(ms, batches, SamplesOf(measurements), compounds, column, hasCorrected,
                              includeIs);
      m := Matrix(header, out);
    }
  }
}
