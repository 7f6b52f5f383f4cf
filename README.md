# mzQuality measurement table and QC engine in Dafny

mzQuality scores batches of mass-spectrometry measurements for quality. This
project models its two core classes:

- **`Mea`** (`src/lib/mea.py`) is the measurement table. It holds one row per
  compound and injection. Loading derives the columns the rest of the system
  uses: the sanitised compound name, `ratio = area / area_is`, the
  `(batch, order)` sort and `position`. The table offers filtered views
  (finite-area rows, one batch, one compound, one internal standard, replicate
  samples), sorted distinct values (types, batches, compounds, internal
  standards), the samples in first-appearance order, and `as_table`, a
  sample-by-compound data matrix.
- **`Qccalc`** (`src/lib/qccalc.py`) is the statistics engine over a `Mea`. It
  computes four things:
  - the blank effect per batch and compound;
  - the inter-batch QC-median correction, which writes
    `inter_median_qc_corrected` back into the `Mea`;
  - the relative standard deviation (RSD) of the QC samples per compound and
    batch;
  - the retention-time shift of every row against its group.

Modules:

| file | module | contents |
|---|---|---|
| `wrappers.dfy` | `Wrappers` | `Option` |
| `seqs.dfy` | `Seqs` | order-preserving `Filter` and `Map`, `Sum`, and group counting |
| `order.dfy` | `Order` | strict orders; numpy's `unique()` + `sort()` (`SortedDistinct`); pandas' `unique()` (`Unique`, in first-appearance order) |
| `stats.dfy` | `Stats` | pandas' `mean`, `median` and `std` (sample), numpy's `std` (population), the RSD, and `round(x, 2)` |
| `mea.dfy` | `Measurements` | rows, name sanitising, loading, accessors, the data matrix, and `class Mea` |
| `grids.dfy` | `Grids` | nested-loop output layouts: batch-major grids, and compound-major blocks of optional or variable-size cells |
| `qccalc.dfy` | `QcCalc` | the four calculations, and `class Qccalc` |

Conventions:

- Numbers are `real`. A NaN or infinite `area`, `area_is`, `ratio` or
  `inter_median_qc_corrected` value is `None` in an `Option<real>`. The
  retention time `rt` is always a number (see "## Left out").
- pandas skips NaN in every reduction, and so does the model (`Stats.Defined`).
  The model also skips an infinite value, which pandas counts (see "## Left out").
- A division by zero, or by an undefined value, is undefined (`Stats.Div`).
- The square root inside a standard deviation is a parameter `sqrt` of the
  functions that need it. Every property is stated for any `sqrt`.
- The engine's loops are `method`s. Each is proved equal to a specification
  function (`BlankEffectTable`, `CorrectedRows`, `RsdQcTable`, `RtShiftTable`,
  `Pivot`). The lemmas state what those functions promise.
- Whether the table has the `inter_median_qc_corrected` column is a flag
  (`Frame.hasCorrected`, `Mea.hasCorrected`). A missing column raises a
  `KeyError` in `rsdqc` (the `Outcome` datatype). In `as_table` it gives `0.0`
  cells.

Behaviour of the code that the model keeps:

- The blank effect is `100 * mean(blank areas) / mean(sample areas)`.
- The per-batch QC median takes all QC ratios of the batch. Only the
  inter-batch median keeps just the positive ratios.
- `rsdqc` gives one row per compound and batch with a QC row.
- Sanitised compound names are not unique: `FixCompoundNameCollides` gives two
  names that collide.
- `get_samples(batch)` and `get_compound_data(batch=...)` test the truth value
  of `batch`. So batch `0` selects every batch (`Measurements.Truthy`).
- `position` is not the rank after sorting (see "## Findings").

## Model

| member | source | states |
|---|---|---|
| Measurements.FixCompoundName | src/lib/mea.py:240-245 | the sanitised name contains none of the five changed characters (space, `*`, `%`, `&`, `,`); a name without any of them is returned unchanged |
| Measurements.FixCompoundNameChars | src/lib/mea.py:242-244 | the translation table: a space and a comma become `_`, `*` becomes `_star`, `%` becomes `_pct`, `&` becomes `_and`, and any other character stays as it is |
| Measurements.FixCompoundNameAppend | src/lib/mea.py:242-244 | the translation works character by character: sanitising `a + b` gives sanitised `a` followed by sanitised `b` |
| Measurements.FixCompoundNameIdempotent | src/lib/mea.py:242-244 | sanitising an already sanitised name changes nothing |
| Measurements.FixCompoundNameCollides | src/lib/mea.py:242-244 | sanitising is not injective: the different names `"a b"` and `"a,b"` both become `"a_b"` |
| Measurements.RatioOf | src/lib/mea.py:54 | the ratio is defined exactly when `area` and `area_is` are both defined and `area_is` is not zero; a defined ratio times `area_is` is `area` |
| Measurements.SortByBatchOrder | src/lib/mea.py:57-59 | the result is ascending in `(batch, order)` and is a permutation of the input |
| Measurements.SortByBatchOrderStable | src/lib/mea.py:57-59 | given rows in file order, rows with equal `(batch, order)` keep their file order |
| Measurements.LoadAsWrittenPositions | src/lib/mea.py:57-62 | as written, the `position` values over the loaded table are exactly the multiset 1..N |
| Measurements.LoadPositionsNotRanks | src/lib/mea.py:61-62 | as written, a two-row file in descending batch order loads with positions 2, 1 after sorting, so positions do not follow `(batch, order)` |
| Measurements.LoadSorted | src/lib/mea.py:57-62 | the loaded table, both as written and corrected, is ascending in `(batch, order)`, and rows with equal key are in file order |
| Measurements.LoadRows | src/lib/mea.py:30-62 | as written: the loaded table has one row per file row, each exactly once; each is the file row its label names, with sanitised name, derived ratio and `position` equal to that label plus one |
| Measurements.LoadRankedRows | src/lib/mea.py:30-62 | corrected: the same, with `position` equal to the row's rank in the sorted table |
| Measurements.LoadPositions | src/lib/mea.py:57-62 | corrected: the positions are exactly 1..N, and a row with a smaller `(batch, order)` key has a smaller position |
| Measurements.GetMeasurements | src/lib/mea.py:68-73 | with `drop_na`, a row is returned iff it is in the table with a finite area, and as often as in the table; without it, the table itself |
| Measurements.GetMeasurementsSnoc | src/lib/mea.py:68-73 | the selection keeps table order: a row appended to the table comes last in the selection when it is selected |
| Measurements.GetBatchData | src/lib/mea.py:138-142 | a row is returned iff it is among `get_measurements(drop_na)` and has the given batch |
| Measurements.Selection | src/lib/mea.py:145-150 | the start of the compound and internal-standard selections: the batch filter applies only for a truthy batch |
| Measurements.GetCompoundData | src/lib/mea.py:145-152 | a row is returned iff it is selected (finite area with `drop_na`, batch when truthy) and has the given compound |
| Measurements.GetReplicateMeasurements | src/lib/mea.py:80-85 | a row is returned iff it is among `get_measurements(drop_na)` and its sample has at least one such row whose replicate marker is not `''`, `'-'`, `'_'` or `'a'`; every row of such a sample is kept, not only the tagged rows |
| Measurements.GetTypes | src/lib/mea.py:88-95 | strictly ascending; a type is listed iff some finite-area row has it |
| Measurements.GetBatches | src/lib/mea.py:98-105 | strictly ascending; a batch is listed iff some finite-area row has it |
| Measurements.GetCompounds | src/lib/mea.py:108-115 | strictly ascending; a compound is listed iff some finite-area row has it |
| Measurements.GetInternalStandards | src/lib/mea.py:118-125 | strictly ascending; an internal standard is listed iff some finite-area row names it |
| Measurements.GetSamples | src/lib/mea.py:128-135 | no sample is listed twice; a sample is listed iff some finite-area row of the selected batch (every batch when the argument is falsy) has it; the samples come in the order of their first row among those rows |
| Order.UniqueFirstAppearance | src/lib/mea.py:135 | pandas' `unique()` lists values in the order of their first occurrence |
| Order.SortedDistinctSpec | src/lib/mea.py:91-92 | `unique()` followed by `sort()` is strictly ascending and holds exactly the values of the column |
| Measurements.FirstDefined | src/lib/mea.py:164 | pandas' `first()` on a column: defined iff some value is defined, and then equal to the first defined value |
| Measurements.GetInternalStandardData | src/lib/mea.py:155-164 | one row per distinct aliquot among the internal standard's selected rows, aliquots strictly ascending; row `k` is labelled `k`, carries the internal standard, and is its aliquot's first row with `area`, `area_is`, `ratio` and the corrected value each replaced by the first defined value of that column among the aliquot's rows |
| Measurements.Cell | src/lib/mea.py:201-211 | a cell is the requested column (`area`, `area_is`, `ratio`, `rt`, the corrected value, `batch`, `order` or `position`) of the first row matching (batch, sample, compound); it is `0.0` when no row matches or the column does not exist |
| Measurements.CellIs | src/lib/mea.py:213-217 | the `_IS` cell is `area_is` of the first matching row, and `0.0` when no row matches |
| Measurements.Layout | src/lib/mea.py:180-189 | compound `j` sits at column `j` (or `2j` with `_IS` columns), with its `_IS` entry right after it |
| Measurements.PivotHeader | src/lib/mea.py:175-189 | the header is `sample`, `batch`, then every compound in ascending order, each followed by `<compound>_IS` when `include_is` |
| Measurements.MatrixRowsSpec | src/lib/mea.py:193-197 | every matrix row belongs to a listed batch and one of that batch's samples, and every such (batch, sample) pair has a row |
| Measurements.PivotBatchOrder | src/lib/mea.py:193-197 | the matrix rows come in ascending batch order |
| Measurements.PivotRowKeys | src/lib/mea.py:193-197 | for a nonzero batch, the matrix has a row for (batch, sample) iff the table has a finite-area row of that sample in that batch |
| Measurements.PivotRowsOnce | src/lib/mea.py:193-197 | no (batch, sample) pair has two rows in the matrix |
| Measurements.PivotSampleOrder | src/lib/mea.py:193-197 | within one batch, the rows list the samples in the order of their first finite-area row in that batch (for batch `0`, in the whole table) |
| Measurements.PivotCells | src/lib/mea.py:199-223 | every matrix row holds, per compound, the `Cell` of its batch and sample, followed by the `CellIs` when `include_is` |
| Measurements.LayoutOf | src/lib/mea.py:180-189 | the append loop over the compounds builds exactly `Layout` |
| Measurements.MatrixRowOf | src/lib/mea.py:196-223 | one matrix row, built by the compound loop, is that of `RowOf` for its batch and sample |
| Measurements.BatchRowsOf | src/lib/mea.py:194-223 | the sample loop of one batch builds exactly that batch's rows, in sample order |
| Measurements.MatrixRowsOf | src/lib/mea.py:193-223 | the batch loop builds exactly the matrix rows, batch after batch |
| Measurements.Mea.constructor | src/lib/mea.py:10-19 | `Mea()` without a file starts with no rows and no corrected column |
| Measurements.Mea.FromFile | src/lib/mea.py:10-19 | `Mea(mea_file)` holds the table loaded as written from the file's rows |
| Measurements.Mea.ReadMeaFile | src/lib/mea.py:30-62 | the step-by-step derivation replaces the table by `LoadAsWritten` of the file's rows, described by `LoadSorted`, `LoadRows` and `LoadAsWrittenPositions` |
| Measurements.Mea.SetMeasurements | src/lib/mea.py:76-77 | the table becomes the given frame |
| Measurements.Mea.AsTable | src/lib/mea.py:167-229 | the returned matrix is `Pivot` of the table; its header, rows and cells are described by `PivotHeader`, `MatrixRowsSpec`, `PivotRowKeys`, `PivotRowsOnce`, `PivotSampleOrder`, `PivotBatchOrder` and `PivotCells` |
| Stats.Defined | src/lib/qccalc.py:55 | skipping NaN keeps exactly the defined values |
| Stats.Mean | src/lib/qccalc.py:55 | the mean is defined iff there is a value |
| Stats.MeanTimesCount | src/lib/qccalc.py:55 | the mean times the count is the sum |
| Stats.Sort | src/lib/qccalc.py:81 | the values in ascending order, as a permutation |
| Stats.Median | src/lib/qccalc.py:81 | the median is defined iff there is a value |
| Stats.MedianBounds | src/lib/qccalc.py:81 | the median lies between two of the values |
| Stats.MedianScale | src/lib/qccalc.py:91-94 | scaling every value by a positive factor scales the median by that factor |
| Stats.SampleStd | src/lib/qccalc.py:125-127 | pandas' `std()` is defined iff there are at least two values |
| Stats.PopulationStd | src/lib/qccalc.py:159 | numpy's `std()` is defined iff there is a value |
| Stats.Rsd | src/lib/qccalc.py:125-127 | the RSD is defined iff there are at least two values and their sum is not zero |
| Stats.RsdTimesMean | src/lib/qccalc.py:125-127 | a defined RSD times the mean is 100 times the standard deviation |
| Stats.DeviationsFromMeanSumToZero | src/lib/qccalc.py:158-167 | the deviations from the mean sum to zero |
| Stats.Round2 | src/lib/qccalc.py:132-133 | the result is a multiple of 0.01 within 0.005 of the input |
| Stats.RoundOptRounds | src/lib/qccalc.py:132-133 | a defined value is rounded to two decimals; an undefined one stays undefined |
| QcCalc.BlankEffectOf | src/lib/qccalc.py:49-55 | the blank effect is defined iff the batch and compound have a blank area and a sample area, and the mean sample area is not zero |
| QcCalc.BlankEffectPercent | src/lib/qccalc.py:55 | a defined blank effect times the mean sample area is 100 times the mean blank area |
| QcCalc.BlankEffectTableSize | src/lib/qccalc.py:38-60 | `blank_effect` has exactly one row per batch and compound, so groups with no blanks or no samples are kept |
| QcCalc.BlankEffectTableCell | src/lib/qccalc.py:38-60 | the table is batch-major: for batch number `i` and compound number `j`, row `i` times the number of compounds plus `j` is the blank effect of that batch and compound |
| QcCalc.BatchBlankEffectsOf | src/lib/qccalc.py:40-60 | the compound loop of one batch builds that batch's row of the table |
| QcCalc.BlankEffectsOf | src/lib/qccalc.py:38-60 | the batch loop builds the whole batch-major table |
| QcCalc.Qccalc.BlankEffect | src/lib/qccalc.py:27-62 | `blank_effect` returns `BlankEffectTable` of the `Mea`'s table |
| QcCalc.Factor | src/lib/qccalc.py:78-91 | the factor is defined iff the compound has a positive QC ratio, the batch has a QC ratio, and the batch QC median is not zero |
| QcCalc.MediansUnchanged | src/lib/qccalc.py:81-94 | the medians do not read the corrected column, so writing it group by group does not change later factors |
| QcCalc.CorrectedForAppend | src/lib/qccalc.py:94 | correcting one more (compound, batch) group with its own factor extends the set of corrected rows by that group and changes no other row |
| QcCalc.CorrectCompound | src/lib/qccalc.py:84-94 | after the batch loop of one compound, over any list naming every batch, every row of that compound is corrected by its own factor and every other row is as before |
| QcCalc.CorrectInOrder | src/lib/qccalc.py:75-94 | the nested loops give `CorrectedRows` for any compound list and any batch list that name every compound and every batch of the rows, so the visiting order does not matter |
| QcCalc.CorrectAll | src/lib/qccalc.py:75-94 | the nested loops in the code's order (compounds and batches by first appearance) give `CorrectedRows`: each row is corrected by the factor of its own group |
| QcCalc.QcCorrectionOf | src/lib/qccalc.py:64-98 | with no QC row among the finite-area rows, the result is empty; otherwise it has one row per finite-area row, and every row differs from its source row only in the corrected column |
| QcCalc.GlobalQcMedianPositive | src/lib/qccalc.py:78-81 | the inter-batch QC median, when defined, is positive |
| QcCalc.CorrectedQcColumn | src/lib/qccalc.py:94 | within a group with a defined factor, the corrected QC values are the QC ratios times that factor |
| QcCalc.CorrectedQcMedian | src/lib/qccalc.py:78-94 | for a batch whose QC median is positive, the median corrected value of its QC rows equals the compound's inter-batch QC median |
| QcCalc.Qccalc.QcCorrection | src/lib/qccalc.py:64-98 | returns `QcCorrectionOf` of the old table; with a QC row the `Mea` holds the result and has the corrected column, without one the `Mea` is unchanged |
| QcCalc.RsdRowOf | src/lib/qccalc.py:118-133 | the RSD row of a compound and batch carries that compound and batch |
| QcCalc.RsdRowRounding | src/lib/qccalc.py:125-133 | `rsdqc_nc` is the exact RSD of the QC areas; the other two columns are the RSDs of the ratios and of the corrected values, rounded to two decimals |
| QcCalc.SingleQcHasNoRsd | src/lib/qccalc.py:124-127 | a group with a single QC row has all three RSDs undefined |
| QcCalc.RsdRowsExact | src/lib/qccalc.py:116-133 | a row is in the RSD table iff it is the RSD row of a listed compound and batch with at least one QC row |
| QcCalc.RsdRowsOrdered | src/lib/qccalc.py:116-117 | the RSD rows are strictly ascending, compound first, then batch |
| QcCalc.RsdQcTableComplete | src/lib/qccalc.py:116-124 | every QC row among the finite-area rows has the RSD row of its compound and batch in the table |
| QcCalc.RsdQcTableWithQc | src/lib/qccalc.py:113-133 | with a QC row among the finite-area rows the RSD table is not empty, so `rsdqc` returns it with the corrected column and raises without it |
| QcCalc.RsdQcTableSpec | src/lib/qccalc.py:100-135 | when `rsdqc` returns a table, its rows are exactly the RSD rows of groups with a QC row, strictly ascending by compound and then batch |
| QcCalc.RsdCompound | src/lib/qccalc.py:117-133 | the batch loop of one compound raises iff the corrected column is missing and some batch has a QC row of the compound; otherwise it builds that compound's rows |
| QcCalc.RsdQcOf | src/lib/qccalc.py:116-133 | the nested loops return the RSD table, or the `KeyError` when the corrected column is missing and some group has a QC row |
| QcCalc.Qccalc.RsdQc | src/lib/qccalc.py:100-135 | `rsdqc` returns `RsdQcTable`: nothing when no finite-area row is QC, the `KeyError` when the corrected column is missing, the table otherwise |
| QcCalc.GroupShiftAt | src/lib/qccalc.py:157-167 | shift row `i` of a group is that of the group's row `i`: its sample, the group's mean and population standard deviation, and `rt - rt_mean` |
| QcCalc.GroupShiftsSumToZero | src/lib/qccalc.py:158-167 | the shifts of one group sum to zero |
| QcCalc.RtShiftCount | src/lib/qccalc.py:150-167 | `rt_shifts` has exactly one row per finite-area row |
| QcCalc.RtShiftSound | src/lib/qccalc.py:150-167 | every shift row comes from a finite-area row of its compound and batch, with that group's mean and standard deviation |
| QcCalc.RtShiftComplete | src/lib/qccalc.py:150-167 | every finite-area row has a shift row with its compound, batch, sample and `rt - rt_mean` |
| QcCalc.RtShiftOrdered | src/lib/qccalc.py:150-151 | the shift rows come compound by compound and, within a compound, in ascending batch order |
| QcCalc.RtShiftsBalance | src/lib/qccalc.py:150-167 | for every compound and batch, the shifts of that compound and batch in the `rt_shifts` table sum to zero |
| QcCalc.GroupShiftsOf | src/lib/qccalc.py:152-167 | the `iterrows` loop of one group builds exactly the group's shift rows, in table order |
| QcCalc.CompoundShiftsOf | src/lib/qccalc.py:151-167 | the batch loop of one compound builds that compound's shift rows |
| QcCalc.RtShiftsOf | src/lib/qccalc.py:150-167 | the nested loops build `RtShiftTable` |
| QcCalc.Qccalc.RtShifts | src/lib/qccalc.py:137-169 | `rt_shifts` returns `RtShiftTable` of the `Mea`'s table |
| QcCalc.Qccalc.constructor | src/lib/qccalc.py:9-16 | `Qccalc(mea)` holds that `Mea` |
| QcCalc.Qccalc.SetMea | src/lib/qccalc.py:19-20 | `set_mea` replaces the `Mea` |

## Left out

- Reading and writing files: `pd.read_csv`, the `FileExistsError` handler (src/lib/mea.py:35, 64-65) and `to_csv` in `as_table` (src/lib/mea.py:228-233). A file is given as its sequence of rows (`RawRow`), and `AsTable` returns the matrix.
- The `timestamp` column (src/lib/mea.py:40-51): it depends on `strptime`, the local time zone and a swallowed exception. The column is not used by the core.
- `set_mea_file` / `get_mea_file` (src/lib/mea.py:22-27) and `get_mea` (src/lib/qccalc.py:23-24): plain field access, which the classes' fields stand for.
- `Mea()` and `Qccalc()` without an argument leave `None` in a field. The model starts `Mea` with an empty table, and a `Qccalc` always holds a `Mea`.
- Floating point: NaN and infinity are both `None`, and no operation distinguishes them. `float(value)` in `as_table` is the identity.
- Infinite ratios: `ratio` is ±inf when `area_is` is zero and `area` is not (src/lib/mea.py:54). pandas keeps an infinite value through `ratio > 0` and `median()` (src/lib/qccalc.py:78-90), but the model's reductions skip it like a NaN. For example, QC ratios 1, inf, 3 have median 3 in the code and 2 in the model.
- Empty cells: `read_csv` reads an empty cell as NaN (src/lib/mea.py:35). The model has no missing value for the text, `batch` or `order` columns, and reads an empty text cell as `""`. The lines below name what this changes, member by member.
- FixCompoundName: an empty `compound` cell is NaN, and `str(name)` turns it into the name `"nan"` (src/lib/mea.py:38, 244). The model reads the cell as `""`, which sanitises to `""`.
- GetTypes: an empty `type` cell puts NaN among the text values, so `sort()` raises `TypeError` (src/lib/mea.py:92). The model lists `""` as a type.
- GetInternalStandards: an empty `compound_is` cell puts NaN among the text values, so `sort()` raises `TypeError` (src/lib/mea.py:122). The model lists `""` as an internal standard.
- GetInternalStandardData: an empty `aliquot` cell is NaN, and `groupby` drops its rows (src/lib/mea.py:164). The model gives those rows a group keyed `""`.
- GetReplicateMeasurements: a marker is always text. `read_csv` reads an empty `replicate` cell as NaN (src/lib/mea.py:35), and `isin` never matches NaN (src/lib/mea.py:83). So in the code a sample with an empty marker counts as replicated, and the `''` sentinel never matches. The model treats `""` as unmarked.
- GetInternalStandardData: aliquots are text ordered by `StrLess`. `read_csv` reads an all-integer `aliquot` column as integers, and then `groupby` (src/lib/mea.py:164) orders the groups numerically (2 before 10) where the model orders them as strings ("10" before "2").
- Round2: rounds the exact real half to even. Python rounds the binary double, so results for decimal halves such as 2.675 can differ.
- SampleStd: the square root is the parameter `sqrt`, and no property of it is assumed.
- PopulationStd: the square root is the parameter `sqrt`, and no property of it is assumed.
- Rsd: built on `SampleStd`, so it too is stated for any `sqrt`.
- CorrectedQcMedian: stated for a positive batch QC median. The batch median has no positivity filter, so it can be negative. The statement does not cover that case.
- Missing retention times: `rt` is always a number. A NaN `rt`, which `np.mean` and `np.std` would skip and whose shift would be NaN, is not represented.
- Mea.AsTable: a repeated column name is not an error in the model. `as_table` keeps one list per column name (src/lib/mea.py:170-189), so a compound named `sample` or `batch`, or compounds `X` and `X_IS` with `include_is`, share a list with another column. That list then gets two values per matrix row. Then the lists have different lengths, and `pd.DataFrame` raises `ValueError` (src/lib/mea.py:225). The one exception is a table whose only compounds are `sample` and `batch`, without `include_is`: every list gets two values per row, so nothing raises, and the code's lists mix names with values. `Pivot` and `AsTable` return a matrix whose header repeats the name instead.
- Other columns: `as_table` reads `area`, `area_is`, `ratio`, `rt`, the corrected value, `batch`, `order` and `position`. Columns the core does not read (such as `rt_is`, `injection` and `datetime`) are not fields of a row, so `as_table` on them gives `0.0` cells where the code gives the column's values. `float()` of a text column, which raises in the code, is not modelled.
- The `.ix` assignment (src/lib/qccalc.py:94) is modelled as writing the column of the selected rows. Other rows keep their value, which is undefined until their group is written. pandas' index alignment with duplicate labels is not modelled. After loading, the labels are distinct.
- `unique_batch_samples` (src/lib/qccalc.py:43-44) is computed and never used.
- The stable multi-column `sort_values` is modelled as a stable insertion sort. pandas' choice of algorithm is not.
- `qcplot.py`, `qcli.py` and `qc_runner.py`: charting, the command line and scripting around the core.

## Findings

| source | as written | input that shows it | evidently intended | confidence | as-written member | corrected member |
|---|---|---|---|---|---|---|
| src/lib/mea.py:61-62 | `reset_index()` returns a new frame that is discarded, so `position = index + 1` uses the labels the sort carried along, i.e. the row's number in the file plus one | a file whose first row is in batch 2 and whose second row is in batch 1: after sorting, the batch-1 row comes first with position 2 and the batch-2 row second with position 1 | `position` is the 1-based rank of the row in `(batch, order)` order | not executed | Measurements.LoadPositionsNotRanks | Measurements.LoadPositions |

The as-written load is `Measurements.LoadAsWritten`. `Mea.ReadMeaFile` and
`Mea.FromFile` produce it, and `LoadSorted`, `LoadRows` and
`LoadAsWrittenPositions` describe it: sorted, each file row once, positions
still a permutation of 1..N. The corrected load is `Measurements.Load`, which
ranks the sorted rows (`RankPositions`). `LoadRankedRows` and `LoadPositions`
describe it.
