# Depth-bin soil aggregation, modelled in Dafny

This project models the aggregation step of the Web Soil Survey script
`soil-analysis_websoilsurvey/get_data_online.py`. For one coordinate, the
script takes the horizon rows returned by the soil service and does the
following:

- removes duplicate rows on the key `(lat, lon, deptht, depthb, sand, silt, clay)`, keeping the first;
- drops rows that lack sand, silt or clay;
- keeps only the rows of the dominant component, that is, those whose `prcent` equals the maximum;
- averages 25 numeric columns over twenty fixed 10 cm depth bins from 0 to 200 cm, weighting each horizon by the length it shares with the bin;
- takes `hzname` and `chkey` from the first overlapping horizon;
- adds an available water storage column, `aws`;
- forward-fills the table from top to bottom.

Modules:

- `Wrappers` holds `Option`. `None` stands for a pandas NaN/None cell.
- `Seqs` holds the order-preserving boolean-mask selection.
- `Horizons` models the horizon row and the three cleaning steps: dedup, texture filter and dominant component.
- `DepthBins` models the bin edges and labels: `np.arange`, the f-string labels and the `split('-')` parse back to bounds.
- `WeightedAverage` models `calculate_weighted_averages`.
- `ForwardFill` models `ffill` on one column.
- `PriorityTable` models the per-bin loop, the `aws` column and the table fill. `ComputeBins`, `AddAwsColumn` and `ForwardFillRows` are loops proved equal to the specification functions, and `ProcessCoordinate` chains them in the script's order. The lemmas state what the script promises in terms of those functions.

Pandas semantics made explicit:

- `sum` skips NaN. A missing value therefore adds nothing to the numerator, but its horizon's intersection length still counts in the total. A column missing in every overlapping horizon averages to `0`, not to missing.
- A comparison with NaN is false. A horizon with a missing depth therefore never overlaps a bin. When every `prcent` is missing, the dominant filter keeps nothing.
- `drop_duplicates` treats two NaN keys as equal. In the model, `None == None`.
- Line 112 coerces `hzname` and `chkey` to numbers, so they are `Option<real>` like every other cell.

Two behaviours of the code that a reader might not expect, both modelled as written:

- An empty or all-missing `prcent` column raises no error. `max` gives NaN, the filter keeps no rows, and every bin comes out missing (`Horizons.SelectPriorityEmpty`, `PriorityTable.EmptyPriorityAllMissing`).
- Nothing checks that a horizon's top lies above its bottom. An inverted horizon that still passes the overlap mask gets a negative intersection length, and it can push a bin's average outside the range of its inputs. `WeightedAverage.AverageWithinBounds` therefore requires every overlapping horizon to have `deptht < depthb`.
- `aws` is computed as `awc * (depthb - deptht) / 100` from the averaged horizon depths in the row, not from the 10 cm bin width. A 30 cm horizon with `awc` 0.2 reports 0.06 in its first bin, not 0.02 (`PriorityTable.AwsCountsHorizonNotBin`).

## Model

| member | source | states |
|---|---|---|
| Seqs.Filter | soil-analysis_websoilsurvey/get_data_online.py:129-130 | a boolean mask keeps each row exactly as often as it occurs when the predicate holds and drops it otherwise, and keeps only rows of the input |
| Seqs.FilterHead | soil-analysis_websoilsurvey/get_data_online.py:148-149 | the first row of the masked frame is the first input row satisfying the mask |
| Seqs.FilterEmpty | soil-analysis_websoilsurvey/get_data_online.py:133 | the masked frame is empty exactly when no row satisfies the mask |
| Horizons.DedupFrom | soil-analysis_websoilsurvey/get_data_online.py:89 | the scan keeps rows whose key has not been seen: the result has distinct keys, covers every key not already seen, and keeps every first occurrence |
| Horizons.DropDuplicates | soil-analysis_websoilsurvey/get_data_online.py:89 | dedup on the seven key columns: every key survives exactly once, every first occurrence is kept, nothing new appears |
| Horizons.DedupKeepsDistinct | soil-analysis_websoilsurvey/get_data_online.py:89 | rows whose keys are already distinct and unseen pass through unchanged |
| Horizons.DropDuplicatesIdempotent | soil-analysis_websoilsurvey/get_data_online.py:89 | dropping duplicates twice gives the same rows as once |
| Horizons.DropMissingTexture | soil-analysis_websoilsurvey/get_data_online.py:115 | a row survives, with its multiplicity, exactly when sand, silt and clay are all present |
| Horizons.MaxPrcent | soil-analysis_websoilsurvey/get_data_online.py:118 | the NaN-skipping maximum: missing iff every `prcent` is missing, otherwise attained by some row and at least every present `prcent` |
| Horizons.MaxIsDominance | soil-analysis_websoilsurvey/get_data_online.py:118-119 | a row equals the maximum exactly when its `prcent` is present and no present `prcent` exceeds it |
| Horizons.Dominant | soil-analysis_websoilsurvey/get_data_online.py:118-119 | keeps exactly the rows of maximal `prcent`, ties included and missing `prcent` dropped; empty input gives empty output |
| Horizons.SelectPriority | soil-analysis_websoilsurvey/get_data_online.py:115-119 | the dominant filter runs on the texture-complete rows only: a row survives iff it has a texture and is dominant among those rows |
| Horizons.SelectPriorityEmpty | soil-analysis_websoilsurvey/get_data_online.py:118-119 | nothing survives exactly when no texture-complete row has a present `prcent`; no error is raised |
| DepthBins.Arange | soil-analysis_websoilsurvey/get_data_online.py:122 | `np.arange(start, stop, step)`: element `i` is `start + step*i`, every element is below `stop`, and the next would not be |
| DepthBins.Edges | soil-analysis_websoilsurvey/get_data_online.py:122 | the bin edges are the 21 values `0, 10, ..., 200` |
| DepthBins.NatToString | soil-analysis_websoilsurvey/get_data_online.py:123 | the decimal rendering of a number is a non-empty string of digits |
| DepthBins.DigitsRoundTrip | soil-analysis_websoilsurvey/get_data_online.py:123 | reading back the decimal rendering of `n` gives `n` |
| DepthBins.ParseNat | soil-analysis_websoilsurvey/get_data_online.py:156 | a label part parses exactly when it is a non-empty string of digits |
| DepthBins.Split | soil-analysis_websoilsurvey/get_data_online.py:156 | `str.split` gives at least one part, and the whole string when the separator is absent |
| DepthBins.FormatLabel | soil-analysis_websoilsurvey/get_data_online.py:123 | the label `f'{i}-{i+10}'` splits on `-` into exactly the two numerals |
| DepthBins.SplitAround | soil-analysis_websoilsurvey/get_data_online.py:156 | splitting `a-b` (no `-` in `a` or `b`) gives exactly `[a, b]` |
| DepthBins.Labels | soil-analysis_websoilsurvey/get_data_online.py:123 | exactly 20 labels, label `i` being `f'{10i}-{10i+10}'` |
| DepthBins.FirstAndLastLabels | soil-analysis_websoilsurvey/get_data_online.py:122-123 | the labels run from `'0-10'` to `'190-200'` |
| DepthBins.ParseLabel | soil-analysis_websoilsurvey/get_data_online.py:156 | a parsed label has non-negative bounds |
| DepthBins.FormatParseRoundTrip | soil-analysis_websoilsurvey/get_data_online.py:156 | parsing the label built from `n` gives back the bounds `(n, n+10)` |
| DepthBins.LabelParses | soil-analysis_websoilsurvey/get_data_online.py:156 | label `i` parses to the bounds `(10i, 10i+10)` |
| DepthBins.LabelsTileDepths | soil-analysis_websoilsurvey/get_data_online.py:122-123 | 20 labels that parse to bins sharing their edges pairwise and covering 0 to 200 |
| DepthBins.BinIndex | soil-analysis_websoilsurvey/get_data_online.py:122-123 | every depth in [0, 200) lies in exactly one bin |
| WeightedAverage.TouchingIsNotOverlap | soil-analysis_websoilsurvey/get_data_online.py:129 | a horizon that only touches the bin (`depthb == lower` or `deptht == upper`) is not selected |
| WeightedAverage.Overlaps | soil-analysis_websoilsurvey/get_data_online.py:129 | a row with a missing depth is never selected; for a horizon with its top above its bottom and a bin of positive width, the mask holds exactly when the two intervals share a stretch of depth |
| WeightedAverage.Intersect | soil-analysis_websoilsurvey/get_data_online.py:137 | the intersection length is at most the bin width, and positive exactly when the horizon has `deptht < depthb` |
| WeightedAverage.Overlapping | soil-analysis_websoilsurvey/get_data_online.py:129-130 | `df[mask]` keeps every overlapping row exactly as often as it occurs and no other row |
| WeightedAverage.WithIntersect | soil-analysis_websoilsurvey/get_data_online.py:137 | the `intersect` column pairs each selected row, in order, with its intersection length |
| WeightedAverage.CalculateWeightedAverages | soil-analysis_websoilsurvey/get_data_online.py:127-151 | 25 averages; every average is missing, and `hzname` and `chkey` are `None`, exactly when no horizon overlaps or the total intersection is 0 |
| WeightedAverage.WeightedSumOfConstant | soil-analysis_websoilsurvey/get_data_online.py:145 | a column constant at `v` has weighted sum `v` times the total intersection |
| WeightedAverage.ConstantRatio | soil-analysis_websoilsurvey/get_data_online.py:145 | the ratio for a constant column is that constant |
| WeightedAverage.ConstantColumnAverage | soil-analysis_websoilsurvey/get_data_online.py:137-145 | if every overlapping horizon has the value `v`, the bin's average is exactly `v` |
| WeightedAverage.WeightedSumBounds | soil-analysis_websoilsurvey/get_data_online.py:145 | with non-negative weights, values in `[lo, hi]` give a weighted sum between `lo` and `hi` times the total |
| WeightedAverage.TotalPositive | soil-analysis_websoilsurvey/get_data_online.py:138 | `TotalIntersect`, the sum of the intersection lengths: with positive lengths, it is positive exactly when some horizon is selected |
| WeightedAverage.ProperSelectedPositive | soil-analysis_websoilsurvey/get_data_online.py:137 | when the overlapping horizons have `deptht < depthb`, every intersection length is positive |
| WeightedAverage.ProperRowsCover | soil-analysis_websoilsurvey/get_data_online.py:133-142 | for such horizons, the bin is uncovered exactly when no horizon overlaps it |
| WeightedAverage.RatioWithin | soil-analysis_websoilsurvey/get_data_online.py:145 | with non-negative weights and a positive total, the weighted average of values in `[lo, hi]` lies in `[lo, hi]` |
| WeightedAverage.AverageWithinBounds | soil-analysis_websoilsurvey/get_data_online.py:137-145 | for a bin of positive width with at least one overlapping horizon, all of them with `deptht < depthb`, and all values present, the average lies between their minimum and maximum |
| WeightedAverage.WeightedSumOfMissing | soil-analysis_websoilsurvey/get_data_online.py:145 | `WeightedSum`, the NaN-skipping numerator: a column missing in every row sums to 0, not to missing |
| WeightedAverage.AllMissingAveragesZero | soil-analysis_websoilsurvey/get_data_online.py:137-145 | a column missing in every overlapping horizon of a covered bin averages to 0, not to missing |
| WeightedAverage.MissingValueStillWeighs | soil-analysis_websoilsurvey/get_data_online.py:138-145 | a horizon with a missing value adds nothing to the numerator but its length to the total |
| WeightedAverage.FirstOverlappingNames | soil-analysis_websoilsurvey/get_data_online.py:148-149 | `hzname` and `chkey` are those of the first overlapping row in input order |
| WeightedAverage.CoveredByBinsPrefix | soil-analysis_websoilsurvey/get_data_online.py:137 | the intersections with the first `n` bins sum to the part of the horizon above `10n` |
| WeightedAverage.IntersectionsSumToThickness | soil-analysis_websoilsurvey/get_data_online.py:137 | for a horizon inside [0, 200], the intersections over all 20 bins sum to `depthb - deptht` |
| ForwardFill.FillFrom | soil-analysis_websoilsurvey/get_data_online.py:181 | the fill keeps the column's length |
| ForwardFill.FillKeepsPresent | soil-analysis_websoilsurvey/get_data_online.py:181 | a present value is never changed |
| ForwardFill.FillUsesNearestAbove | soil-analysis_websoilsurvey/get_data_online.py:181 | a missing cell takes the nearest present value above it |
| ForwardFill.FillCarriesLast | soil-analysis_websoilsurvey/get_data_online.py:181 | cells above which nothing is present take the value carried in |
| ForwardFill.FillLeavesLeadingMissing | soil-analysis_websoilsurvey/get_data_online.py:181 | leading missing cells stay missing |
| ForwardFill.FillRepeatsAbove | soil-analysis_websoilsurvey/get_data_online.py:181 | a missing cell below the first repeats the filled cell above it |
| ForwardFill.FillIdempotent | soil-analysis_websoilsurvey/get_data_online.py:181 | filling a filled column changes nothing |
| ForwardFill.FillConstant | soil-analysis_websoilsurvey/get_data_online.py:181 | a column starting with `v`, whose present cells are all `v`, is `v` everywhere after the fill |
| ForwardFill.FillConstantAfter | soil-analysis_websoilsurvey/get_data_online.py:181 | with `v` carried in and every present cell `v`, the fill is `v` everywhere |
| ForwardFill.Merge | soil-analysis_websoilsurvey/get_data_online.py:181 | one row of the table fill: each cell is the first step of its own column's fill from the value carried above |
| PriorityTable.BinTable | soil-analysis_websoilsurvey/get_data_online.py:154-158 | the per-bin table has 20 rows of 27 cells: 25 averages, `hzname`, `chkey` |
| PriorityTable.BinTableAt | soil-analysis_websoilsurvey/get_data_online.py:155-158 | row `i` is built from label `i` and the averages over the bounds it parses to |
| PriorityTable.ComputeBins | soil-analysis_websoilsurvey/get_data_online.py:154-158 | the append loop over the labels builds exactly the per-bin table |
| PriorityTable.Aws | soil-analysis_websoilsurvey/get_data_online.py:178 | `aws` is present exactly when `awc`, `depthb` and `deptht` are all present in the row |
| PriorityTable.WithAws | soil-analysis_websoilsurvey/get_data_online.py:178 | the `aws` column is appended to every row; labels and coordinates are untouched |
| PriorityTable.AddAwsColumn | soil-analysis_websoilsurvey/get_data_online.py:178 | the row-by-row `apply` gives exactly the table with the `aws` column |
| PriorityTable.AwsUsesHorizonThickness | soil-analysis_websoilsurvey/get_data_online.py:178 | where the overlapping horizons share depths `t`, `d` and `awc` `a`, `aws` is `a*(d-t)/100`, the horizon's thickness and not the bin's width |
| PriorityTable.AwsCountsHorizonNotBin | soil-analysis_websoilsurvey/get_data_online.py:178 | a 30 cm horizon with `awc` 0.2 gives `aws` 0.06 in its first bin, not 0.02 |
| PriorityTable.FillBinRows | soil-analysis_websoilsurvey/get_data_online.py:181 | the table fill keeps the number of rows, each row's label and coordinate, and its number of cells |
| PriorityTable.ForwardFillRows | soil-analysis_websoilsurvey/get_data_online.py:181 | the top-to-bottom loop carrying the last present values gives exactly the filled table |
| PriorityTable.FilledColumn | soil-analysis_websoilsurvey/get_data_online.py:181 | each column of the filled table is that column filled on its own |
| PriorityTable.FillBinRowsStep | soil-analysis_websoilsurvey/get_data_online.py:181 | a filled row below the first merges its own cells into the filled row above |
| PriorityTable.FillMissingRow | soil-analysis_websoilsurvey/get_data_online.py:181 | a row missing in every cell becomes a copy of the filled row above it, or stays missing when first |
| PriorityTable.FillConstantColumn | soil-analysis_websoilsurvey/get_data_online.py:181 | a table column starting with `v`, whose present cells are all `v`, is `v` in every filled row |
| PriorityTable.PriorityTable | soil-analysis_websoilsurvey/get_data_online.py:115-181 | the result for one coordinate has 20 rows, labelled by `Labels()` in order (`'0-10'` to `'190-200'` by `DepthBins.FirstAndLastLabels`), each with 28 cells and the coordinate |
| PriorityTable.ProcessCoordinate | soil-analysis_websoilsurvey/get_data_online.py:104-181 | the script body for one coordinate computes exactly the cleaned, binned, `aws`-extended, filled table |
| PriorityTable.Priority | soil-analysis_websoilsurvey/get_data_online.py:89-119 | every row left by dedup, `dropna` and the dominant filter is an input row with a texture and a present `prcent` (when none has both, nothing is left: `Horizons.SelectPriorityEmpty`) |
| PriorityTable.UncoveredRowMissing | soil-analysis_websoilsurvey/get_data_online.py:133-158 | before the fill, an uncovered bin is missing in every cell, `aws` included |
| PriorityTable.UncoveredBinRepeatsAbove | soil-analysis_websoilsurvey/get_data_online.py:178-181 | after the fill, an uncovered bin repeats every cell of the bin above it, stale `aws` included; a first uncovered bin stays missing |
| PriorityTable.EmptyPriorityAllMissing | soil-analysis_websoilsurvey/get_data_online.py:118-181 | when no row survives the cleaning, every cell of every bin of the filled table is missing; no error is raised |
| PriorityTable.SinglePriority | soil-analysis_websoilsurvey/get_data_online.py:89-119 | one row with a texture and a `prcent` survives the cleaning on its own |
| PriorityTable.SingleHorizonBin | soil-analysis_websoilsurvey/get_data_online.py:129-145 | for a single horizon from the surface, a bin's average is its value where present, and the first bin is always covered |
| PriorityTable.SingleHorizonColumn | soil-analysis_websoilsurvey/get_data_online.py:137-158 | before the fill, the single horizon's column holds its value in the first bin and wherever present |
| PriorityTable.SingleHorizonFillsEveryBin | soil-analysis_websoilsurvey/get_data_online.py:115-181 | one horizon from the surface with value `v` gives `v` in all 20 bins, covered bins by averaging and the rest by the fill |

## Left out

- `fetch_soil_data` and the SOAP request are not modelled. Neither are the HTTP call, the XML parsing or their debug prints. The horizon rows are a parameter.
- `pd.to_numeric(errors='coerce')` is not modelled as a conversion. Its result is the `Option<real>` cell itself.
- Rounding and `astype('Int64')` are not modelled. They are floating-point presentation, and the cast raises on non-integral values.
- The midpoint `depth_bin` column from `pd.cut` is not modelled. It is computed and never read.
- Concatenation across coordinates, the hardcoded coordinate list and printing are not modelled. `ProcessCoordinate` models one coordinate.
- IEEE-754 arithmetic is replaced by exact reals.
- DepthBins.ParseLabel: `float` also accepts signs, decimals and exponents. The model parses only digit strings, which are all the labels ever contain.
- Horizons.DropDuplicates: states membership, key coverage and first-occurrence retention, but not that the input order is kept. The definition keeps it.
- Horizons.SelectPriority: states each row's multiplicity, but not that the input order is kept. The selection keeps it.
- ForwardFill.FillFrom: states only the length. What the fill does is stated by the lemmas that follow it.
- PriorityTable.FillBinRows: states only the shape. Its columns are characterised through `PriorityTable.FilledColumn`.
