# pycytominer, modelled in Dafny

This project is a Dafny model of the core of pycytominer. pycytominer is a library that turns image-based
single-cell measurements (CellProfiler and DeepProfiler output) into per-well profiles. It aggregates
cells, selects features, annotates profiles with platemap metadata, and writes the profiles out. The
model covers the following parts:

- **Feature selection.**
  - The `feature_select` driver, which chains the operations.
  - The filters it chains: variance threshold, correlation threshold, missing values and blocklist. The outlier
    and noise-removal filters are numeric; their results are parameters.
  - The older stand-alone versions of the variance, correlation and missing-value filters.
  - The helpers these share in `cyto_utils/util.py`: how a feature list is inferred and checked, the loader of a
    feature-name file, the pairwise-correlation layout and the frequency statistics.
- **Aggregation.**
  - Grouped `median` and `mean` over the strata columns, with object counts and per-field counts.
  - The image-table aggregation of counts and image features, and its legacy counterpart.
- **Column roles and names.**
  - Metadata versus feature columns.
  - CellProfiler compartments and the linking columns between them.
  - The `SingleCells` settings object and its merge plan.
  - The parser of CellProfiler feature names into compartment, feature group, measurement, channel and parameters.
- **Serialisers and builders.**
  - The GCT 1.3 (Gene Cluster Text) writer, and the legacy writer.
  - The text builders of the SQLite conversion: the null-fill plan and the column typing.
  - The file names and metadata of the DeepProfiler aggregation.
  - The pooled Cell Painting (`pooled/process.py`) site and barcode handling.
  - The CMAP annotation of `annotate_custom`.
  - The output, compression and file-type options.
  - The command line wrapper's argument parsing.
  - The `alias_param` decorator.

Values are modelled as datatypes and pure functions. Steps that update state in the source are modelled as
imperative Dafny: the `SingleCells`, `AggregateDeepProfiler` and `PooledCellPainting` objects, whose methods
update their fields; feature selection's operation loop; the in-place zeroing of the upper triangle of the
correlation matrix; and the keyword rewriting of `alias_param`. Each such method is proved against a
specification function, and the properties are proved as lemmas about that function.

The model takes some things as given rather than computing them:
- Reading files, databases and arrays is left out. The reader's answer (a frame, a list of columns, whether a
  file exists) becomes a parameter.
- The correlation matrix of the chosen method (pearson, spearman or kendall) is an input.
- CellProfiler's feature inference (`infer_cp_features`) is taken as the list it returns.
- A pandas `query` on `samples` becomes the boolean row mask it selects.
- Floating-point values are real numbers.
- Python's `list(set(...))`, whose order is not specified, is modelled as a duplicate-free list in feature order.

Where the code and its tests disagree, the model follows the code. `pycytominer/cyto_utils/single_cell_ingest_utils.py:74`
raises `ValueError` when a compartment named in the linking columns is not among the compartments, while
`pycytominer/tests/test_cyto_utils/test_single_cell_ingest_utils.py:31` expects `AssertionError`. The model
raises `ValueError`.

## Model

| member | source | states |
|---|---|---|
| Aggregate.Values | pycytominer/aggregate.py:104-110 | the values a group aggregates over, missing cells skipped: every value comes from a numeric cell of the column (text has been cast before) |
| Aggregate.DecimalValue | pycytominer/aggregate.py:106 | decimal text with at most one point and at least one digit has a non-negative value |
| Aggregate.ParseFloat | pycytominer/aggregate.py:106 | a value is read only from non-blank text, and is negative only when that text starts with '-'; IntegerTextCast gives its value on integer text |
| Aggregate.IntegerTextCast | pycytominer/aggregate.py:106 | the Float64 cast reads integer text as the integer int() reads from it |
| Aggregate.CastCell | pycytominer/aggregate.py:106 | numbers and missing cells are kept; text is cast exactly when it is decimal text, to its value, and raises ValueError otherwise; no text remains |
| Aggregate.CastColumn | pycytominer/aggregate.py:106 | a column casts exactly when each of its cells does, cell by cell, and fails with ValueError otherwise |
| Aggregate.CastFeatures | pycytominer/aggregate.py:104-107 | the cast succeeds exactly when every feature column casts (ValueError otherwise); each feature column is replaced by its cast and every other column is kept |
| Aggregate.NumbersCastUnchanged | pycytominer/aggregate.py:106 | a column of numbers and missing values passes the cast unchanged |
| Aggregate.CastLeavesNoText | pycytominer/aggregate.py:104-107 | after the cast no feature column holds text |
| Aggregate.Mean | pycytominer/aggregate.py:108-110 | the mean of a group is defined exactly when the group holds a value (NaN otherwise) |
| Aggregate.Median | pycytominer/aggregate.py:108-110 | the median of a group is defined exactly when the group holds a value |
| Aggregate.MeanWithin | pycytominer/aggregate.py:108-110 | the mean of values lying in [lo, hi] lies in [lo, hi] |
| Aggregate.MedianWithin | pycytominer/aggregate.py:108-110 | the median of values lying in [lo, hi] lies in [lo, hi] |
| Aggregate.ConstantGroup | pycytominer/aggregate.py:108-110 | a group whose values all equal v aggregates to v under mean and median |
| Aggregate.AggregateCells | pycytominer/aggregate.py:108-110 | one cast feature over one group is missing exactly when the group has no value |
| Aggregate.Matching | pycytominer/aggregate.py:89-91 | the population rows joined to one subset row are exactly those with the same values on the subset's columns, each once |
| Aggregate.JoinRows | pycytominer/aggregate.py:89-91 | the joined rows are population rows |
| Aggregate.JoinCount | pycytominer/aggregate.py:89-91 | the inner join repeats each population row once per subset row it matches, so unmatched rows vanish and duplicated subset rows duplicate |
| Aggregate.TakeRows | pycytominer/aggregate.py:89-91 | the joined frame keeps all population columns in order, with the chosen rows' cells |
| Aggregate.InnerJoin | pycytominer/aggregate.py:82-91 | the join succeeds exactly when the population holds every subset column (KeyError otherwise) and yields the joined rows |
| Aggregate.GroupRow | pycytominer/aggregate.py:100-114 | an output row has one cell per strata column, count column and feature |
| Aggregate.Grouped | pycytominer/aggregate.py:100-123 | the grouped table has columns strata, then Metadata_Object_Count when counting, then features, and one row per distinct key |
| Aggregate.KeptPositions | pycytominer/aggregate.py:126-131 | the kept positions are exactly those whose column is not dropped, in increasing order |
| Aggregate.AllPositionsKept | pycytominer/aggregate.py:126-131 | when no column is to be dropped, every position is kept |
| Aggregate.DropNumberColumns | pycytominer/aggregate.py:125-131 | no ImageNumber or ObjectNumber column remains; every other column is kept in its order, each row keeps exactly the cells of those columns, and the row count is unchanged |
| Aggregate.NoNumberColumnsDropped | pycytominer/aggregate.py:126-131 | a table without ImageNumber or ObjectNumber columns is returned unchanged |
| Aggregate.Population | pycytominer/aggregate.py:82-91 | without a subset the population is the input frame; with one the columns stay those of the population |
| Aggregate.NeededColumns | pycytominer/aggregate.py:99-110 | grouping can read its input exactly when the strata, the features and (when counting) the object feature are all columns |
| Aggregate.AggregateProfiles | pycytominer/aggregate.py:74-133 | an unsupported operation fails first; the result exists exactly when the operation check, the join, the column reads and the Float64 cast of every feature pass, holds no number column, and is the grouped table of the cast population |
| Aggregate.CastGrouped | pycytominer/aggregate.py:104-131 | grouping the cast features leaves no ImageNumber or ObjectNumber column |
| Aggregate.CastGroupedIsGrouped | pycytominer/aggregate.py:104-131 | when no stratum or feature is named ImageNumber or ObjectNumber, the result is the grouped table of the cast frame, so GroupedRow, EveryRowInOneGroup and GroupedRowsSorted describe what is returned |
| Aggregate.GroupPopulation | pycytominer/aggregate.py:99-131 | grouping succeeds exactly when the needed columns exist (KeyError otherwise) and every feature casts to Float64 (ValueError otherwise), and gives the grouped table of the cast frame with the number columns dropped |
| Aggregate.GroupedRow | pycytominer/aggregate.py:100-114 | row k holds the k-th key, the group's non-missing object count when counting, and each feature aggregated over the group's rows |
| Aggregate.EveryRowInOneGroup | pycytominer/aggregate.py:100-108 | with null keys kept, every input row falls in exactly one output group |
| Aggregate.GroupedRowsSorted | pycytominer/aggregate.py:123 | the output rows are in strictly ascending strata order |
| Aggregate.ObjectCountBounded | pycytominer/aggregate.py:100-102 | the object count of a group never exceeds the group's size |
| Util.CheckCompartments | pycytominer/cyto_utils/util.py:15-23 | a list passes exactly when every lower-cased name is cells, cytoplasm or nuclei, a string exactly when it lower-cased is one, any other value passes; failure is an AssertionError with the fixed message |
| Util.CheckCompartmentsIgnoresCase | pycytominer/cyto_utils/util.py:21-23 | letter case never decides whether a compartment name is accepted |
| Util.CheckCorrelationMethod | pycytominer/cyto_utils/util.py:61-67 | accepted exactly when the lower-cased method is pearson, spearman or kendall, returning it lower-cased, else the AssertionError with the method in the message |
| Util.CorrelationMethodIdempotent | pycytominer/cyto_utils/util.py:61-67 | a checked method passes the check again unchanged |
| Util.CheckAggregateOperation | pycytominer/cyto_utils/util.py:80-86 | accepted exactly when the lower-cased operation is mean or median, returning it lower-cased, else the AssertionError with the operation in the message |
| Util.AggregateOperationIdempotent | pycytominer/cyto_utils/util.py:80-86 | a checked operation passes the check again unchanged |
| Util.AddFeature | pycytominer/cyto_utils/util.py:43-46 | appending a feature to a compartment, or adding a new key, keeps the dictionary well formed |
| Util.ParseLine | pycytominer/cyto_utils/util.py:41-42 | a line parses exactly when it splits into two tab-separated fields after stripping; otherwise the unpacking raises ValueError |
| Util.Build | pycytominer/cyto_utils/util.py:40-46 | the dictionary built from parsed lines is well formed |
| Util.LoadKnownMetadataDictionary | pycytominer/cyto_utils/util.py:37-48 | an empty file raises StopIteration at the header; otherwise the loop's result is the dictionary built from every line after the header |
| Util.BuildSnoc | pycytominer/cyto_utils/util.py:40-46 | one more line either keeps an earlier error, raises its own parse error, or adds its feature |
| Util.BuildKeepsError | pycytominer/cyto_utils/util.py:40-41 | the first line that fails to parse decides the error of the whole file |
| Util.BuildParsesAll | pycytominer/cyto_utils/util.py:40-41 | a file loads only when every line after the header parsed |
| Util.BuildContents | pycytominer/cyto_utils/util.py:40-48 | the loaded dictionary holds exactly the compartments that occur, each with its features in file order |
| Util.LowerPairs | pycytominer/cyto_utils/util.py:111-117 | the pairs listed are exactly the strict lower-triangle index pairs, each once |
| Util.LowerRow | pycytominer/cyto_utils/util.py:111-117 | row a of the strict lower triangle is (a, 0) to (a, a-1) |
| Util.GetPairwiseCorrelation | pycytominer/cyto_utils/util.py:102-120 | succeeds exactly when the method passes its check, returns the matrix unchanged and lists each strict lower-triangle entry with its two feature names |
| Grouping.CellLess | pycytominer/aggregate.py:123 | the sort order of key cells: numbers before text, missing values after everything else, and no cell before itself |
| Grouping.CellLessIrreflexive | pycytominer/aggregate.py:123 | no key cell sorts before itself |
| Grouping.CellLessTotal | pycytominer/aggregate.py:123 | any two different key cells are ordered one way or the other |
| Grouping.CellLessTransitive | pycytominer/aggregate.py:123 | the cell order is transitive |
| Grouping.KeyLessIrreflexive | pycytominer/aggregate.py:123 | no strata key sorts before itself |
| Grouping.KeyLessTotal | pycytominer/aggregate.py:123 | the lexicographic key order is total |
| Grouping.KeyLessTransitive | pycytominer/aggregate.py:123 | the lexicographic key order is transitive |
| Grouping.KeyLessAsymmetric | pycytominer/aggregate.py:123 | the lexicographic key order is asymmetric |
| Grouping.InsertKey | pycytominer/aggregate.py:123 | inserting into sorted keys keeps them sorted and adds exactly the new key |
| Grouping.SortKeys | pycytominer/aggregate.py:123 | the keys come out sorted and a permutation of the input |
| Grouping.SortedDistinctKeysIncrease | pycytominer/aggregate.py:123 | distinct sorted keys are strictly increasing |
| Grouping.RowKey | pycytominer/aggregate.py:100-108 | the key of a row is its strata values in strata order |
| Grouping.RowKeys | pycytominer/aggregate.py:100-108 | one key per row, in row order |
| Grouping.GroupKeys | pycytominer/aggregate.py:108-123 | the groups are exactly the keys that occur, null keys included, each once and in ascending order |
| Grouping.GroupRows | pycytominer/aggregate.py:108 | the rows of a group are exactly the rows with that key |
| Grouping.Column | pycytominer/aggregate.py:104-110 | the cells of a column at the given rows |
| Blacklist.GetBlacklistFeatures | pycytominer/cyto_utils/features.py:25-36 | fails with the assertion message exactly when no column is named blacklist; otherwise the blacklist column in file order, and with a population frame a subsequence of it holding every occurrence, repeats included, of each name that is a population column and nothing else |
| Blacklist.FullPopulationKeepsAll | pycytominer/cyto_utils/features.py:32-34 | a population holding every blacklisted name filters nothing out |
| CountNa.CountNaFeatures | pycytominer/count_na_features.py:9-23 | a missing feature raises KeyError; otherwise one row per requested feature, in order, holding its number of missing cells, at most the row count |
| CountNa.CountsDecideFilter | pycytominer/count_na_features.py:21-23 | the counts agree with the missing-value filter: a feature is too often missing exactly when its count over the row count exceeds the cutoff |
| NaColumns.GetNaColumns | pycytominer/operations/get_na_columns.py:9-60 | a cutoff outside 0 to 1 raises the ValueError first; otherwise succeeds exactly when every resolved feature is a column, else KeyError; the result has no duplicates |
| NaColumns.GetNaColumnsExcludes | pycytominer/operations/get_na_columns.py:41-60 | a name is reported exactly when it is a resolved feature whose missing share over the selected rows exceeds the cutoff |
| NaColumns.CutoffOneKeepsAll | pycytominer/operations/get_na_columns.py:55-59 | with cutoff 1 no column is reported |
| NaColumns.CompleteColumnKept | pycytominer/operations/get_na_columns.py:55-59 | a column without missing cells is never reported |
| NaColumns.EmptyColumnExcluded | pycytominer/operations/get_na_columns.py:55-59 | a non-empty column that is entirely missing is reported by every cutoff below 1 |
| LegacyNaColumns.LegacyGetNaColumns | pycytominer/get_na_columns.py:9-35 | without samples, succeeds exactly when the listed features are columns ("none" takes every column); the result has no duplicates |
| LegacyNaColumns.LegacyGetNaColumnsExcludes | pycytominer/get_na_columns.py:25-35 | with or without a row selection, a name is reported exactly when it is a selected column whose missing share over the selected rows exceeds the cutoff |
| LegacyNaColumns.NegativeCutoffFlagsAll | pycytominer/get_na_columns.py:31-35 | this version has no range check: a negative cutoff reports every column of a non-empty frame |
| CorrelationThreshold.AbsSum | pycytominer/operations/correlation_threshold.py:73 | an absolute correlation sum is never negative |
| CorrelationThreshold.RankedAfter | pycytominer/operations/correlation_threshold.py:73 | a feature with the larger absolute sum ranks later and one with the smaller sum does not; no feature ranks after itself |
| CorrelationThreshold.RankedAfterTotal | pycytominer/operations/correlation_threshold.py:73 | of two different features exactly one ranks after the other |
| CorrelationThreshold.Loser | pycytominer/operations/correlation_threshold.py:106-114 | of the pair, the feature placed later by the ascending sort of absolute sums is returned, and only that one |
| CorrelationThreshold.Passing | pycytominer/operations/correlation_threshold.py:66-76 | exactly the strict lower-triangle pairs whose correlation exceeds the threshold |
| CorrelationThreshold.Losers | pycytominer/operations/correlation_threshold.py:83-85 | one excluded name per passing pair, the later-ranked member of that pair |
| CorrelationThreshold.SelectCorrelated | pycytominer/operations/correlation_threshold.py:76-87 | the excluded names, without duplicates, all among the features |
| CorrelationThreshold.CorrelationThreshold | pycytominer/operations/correlation_threshold.py:44-87 | the method check fails first, then a threshold outside 0 to 1 raises the ValueError; missing features fail; otherwise the exclusions of the correlated features |
| CorrelationThreshold.SelectCorrelatedExcludes | pycytominer/operations/correlation_threshold.py:76-87 | a name is excluded exactly when it is the later-ranked member of some pair above the threshold |
| CorrelationThreshold.ExcludedForPair | pycytominer/operations/correlation_threshold.py:83-87 | every excluded name comes with a pair above the threshold that it loses |
| CorrelationThreshold.LaterRankedExcluded | pycytominer/operations/correlation_threshold.py:83-87 | of every pair above the threshold the later-ranked feature is excluded |
| CorrelationThreshold.SurvivorsBelowThreshold | pycytominer/operations/correlation_threshold.py:1-3 | no two kept features are correlated above the threshold |
| CorrelationThreshold.FirstRankedKept | pycytominer/operations/correlation_threshold.py:70-73 | the feature with the smallest absolute correlation sum is never excluded |
| CorrelationThreshold.ThresholdMonotone | pycytominer/operations/correlation_threshold.py:76 | raising the threshold can only shrink the exclusions |
| CorrelationThreshold.NothingAboveThreshold | pycytominer/operations/correlation_threshold.py:78-80 | when no pair exceeds the threshold nothing is excluded |
| CorrelationThreshold.OneOfCorrelatedPair | pycytominer/operations/correlation_threshold.py:76-87 | of two correlated features and an uncorrelated third, exactly the later-ranked of the two is excluded |
| LegacyCorrelationThreshold.Tril | pycytominer/correlation_threshold.py:56 | entries strictly below the diagonal are kept, all others become zero |
| LegacyCorrelationThreshold.ZeroUpperTriangle | pycytominer/correlation_threshold.py:53-56 | the array is zeroed on and above the diagonal in place, leaving the lower triangle, so a square array ends as the lower triangle of its old contents |
| LegacyCorrelationThreshold.FullRow | pycytominer/correlation_threshold.py:65 | row a of the stacked matrix lists (a, 0) to (a, n-1) |
| LegacyCorrelationThreshold.StackRows | pycytominer/correlation_threshold.py:65 | the stacked index pairs of the first k rows stay inside the matrix |
| LegacyCorrelationThreshold.LegacyPassing | pycytominer/correlation_threshold.py:65-69 | every stacked entry kept lies inside the matrix and its zeroed value exceeds the threshold |
| LegacyCorrelationThreshold.RowMatches | pycytominer/correlation_threshold.py:65-69 | with a non-negative threshold, filtering a full stacked row of the zeroed matrix gives that row's strict lower part above the threshold |
| LegacyCorrelationThreshold.RowsMatch | pycytominer/correlation_threshold.py:65-69 | the same for the first k rows together |
| LegacyCorrelationThreshold.StackMatchesLowerTriangle | pycytominer/correlation_threshold.py:53-69 | the stacked zeroed matrix yields exactly the strict lower-triangle pairs above the threshold, in the same order as the newer module |
| LegacyCorrelationThreshold.LegacySelect | pycytominer/correlation_threshold.py:61-80 | for a non-negative threshold the older exclusions equal the newer module's |
| LegacyCorrelationThreshold.Run | pycytominer/correlation_threshold.py:30-80 | a threshold outside 0 to 1 fails the first assertion, an unknown lower-cased method the second; any result has no duplicates |
| LegacyCorrelationThreshold.LegacyCorrelationThreshold | pycytominer/correlation_threshold.py:40-80 | the exclusions computed over every column of the selected frame when features is "infer", and over the listed features otherwise |
| LegacyCorrelationThreshold.LegacyCorrelationThresholdIntended | pycytominer/correlation_threshold.py:43-50 | the exclusions computed over the non-Metadata_ features when features is "infer" |
| LegacyCorrelationThreshold.InferExcludesMetadata | pycytominer/correlation_threshold.py:43-50 | as written, "infer" can return a Metadata_ column for exclusion |
| LegacyCorrelationThreshold.IntendedSkipsMetadata | pycytominer/correlation_threshold.py:43-46 | with the inferred list applied, no Metadata_ column is ever excluded under "infer" |
| VarianceThreshold.Distinct | pycytominer/operations/variance_threshold.py:84-122 | the distinct non-missing values of a column, each once, all from the column |
| VarianceThreshold.ValueCounts | pycytominer/operations/variance_threshold.py:122 | one count per distinct non-missing value |
| VarianceThreshold.CountsPositive | pycytominer/operations/variance_threshold.py:122 | every value count is at least one |
| VarianceThreshold.MaxOf | pycytominer/operations/variance_threshold.py:124 | the largest count, which is one of the counts |
| VarianceThreshold.RemoveOne | pycytominer/operations/variance_threshold.py:128 | the counts without one occurrence of the top count, one fewer |
| VarianceThreshold.SecondAtMostTop | pycytominer/operations/variance_threshold.py:124-128 | the count ranked second never exceeds the top count |
| VarianceThreshold.FrequencyRatio | pycytominer/operations/variance_threshold.py:132 | the frequency ratio lies between 0 and 1 |
| VarianceThreshold.Flagged | pycytominer/operations/variance_threshold.py:71-95 | exactly the features whose column fails the given rule |
| VarianceThreshold.VarianceThreshold | pycytominer/operations/variance_threshold.py:48-99 | freq_cut outside 0 to 1 raises its ValueError first, then unique_cut; missing features raise KeyError; otherwise succeeds, without duplicates |
| VarianceThreshold.VarianceThresholdExcludes | pycytominer/operations/variance_threshold.py:71-99 | a name is reported exactly when it is a requested feature that fails the frequency rule or the uniqueness rule over the selected rows |
| VarianceThreshold.ConstantColumnExcluded | pycytominer/operations/variance_threshold.py:127-130 | a column holding one repeated value fails the frequency rule |
| VarianceThreshold.ZeroFreqCut | pycytominer/operations/variance_threshold.py:122-135 | with freq_cut 0 only columns with fewer than two distinct values fail the frequency rule |
| VarianceThreshold.BalancedPairKept | pycytominer/operations/variance_threshold.py:132-137 | two equally common values are never excluded by frequency |
| VarianceThreshold.ZeroUniqueCut | pycytominer/operations/variance_threshold.py:89-90 | with unique_cut 0 the uniqueness rule never fires |
| LegacyVarianceThreshold.SelectLegacy | pycytominer/variance_threshold.py:34-35 | selecting rows by label keeps the columns and a valid frame |
| LegacyVarianceThreshold.InferLegacy | pycytominer/variance_threshold.py:37-40 | the inferred features are exactly the columns not starting with Metadata_ |
| LegacyVarianceThreshold.RowLabels | pycytominer/variance_threshold.py:34-35 | one label per selected row: the range index, or the requested labels |
| LegacyVarianceThreshold.Rows | pycytominer/variance_threshold.py:49-51 | the reported entries are exactly the given row labels |
| LegacyVarianceThreshold.Features | pycytominer/variance_threshold.py:61 | the reported entries are exactly the given feature names |
| LegacyVarianceThreshold.Run | pycytominer/variance_threshold.py:44-89 | on a frame with rows, fails with IndexError exactly when a checked column has no value at all, since this version reads the top count unguarded; with no checked column it reports exactly the row labels, because the empty apply swallows the IndexError of its trial call and returns the frame, whose isna() mask keeps the index; a frame without rows gives the empty list, as 0/0 ratios compare false; any result has no duplicates |
| LegacyVarianceThreshold.Validate | pycytominer/variance_threshold.py:30-42 | the two assertions in order, then the row and column selection; a valid result is the selected frame, keeps the columns and holds the listed features |
| LegacyVarianceThreshold.LegacyVarianceThreshold | pycytominer/variance_threshold.py:30-62 | the freq_cut assertion comes first, then the unique_cut one; any result has no duplicates and both cuts in range; what is reported is stated by RunExcludes, InferExcludesMetadata and NoFeaturesReportRows |
| LegacyVarianceThreshold.LegacyVarianceThresholdIntended | pycytominer/variance_threshold.py:37-42 | the same two assertions in order, with the inferred features used as the checked columns |
| LegacyVarianceThreshold.RunExcludes | pycytominer/variance_threshold.py:44-62 | on a frame with rows, a feature name is reported exactly when it is checked and fails the frequency or uniqueness rule |
| LegacyVarianceThreshold.NoFeaturesReportRows | pycytominer/variance_threshold.py:42-61 | as written, an empty feature list reports exactly the labels of the selected rows, each once |
| LegacyVarianceThreshold.InferExcludesMetadata | pycytominer/variance_threshold.py:37-47 | as written, "infer" tests every column, so on a frame with rows a constant Metadata_ column is reported for exclusion |
| LegacyVarianceThreshold.IntendedSkipsMetadata | pycytominer/variance_threshold.py:37-40 | with the inferred features used, no Metadata_ column is reported |
| FeatureSelect.CheckOperation | pycytominer/feature_select.py:115-135 | a list passes exactly when every operation is supported and a string exactly when it is one, as a one-element list; otherwise a ValueError; any other type is reported separately |
| FeatureSelect.Remaining | pycytominer/feature_select.py:199 | the features not excluded so far, in their original order |
| FeatureSelect.FeatureSelect | pycytominer/feature_select.py:115-205 | the loop over the operations computes exactly the validation, the chained exclusions and the final column drop |
| FeatureSelect.ChainKeepsError | pycytominer/feature_select.py:144-199 | once an operation raises, the run raises that error |
| FeatureSelect.StringIsOneElementList | pycytominer/feature_select.py:130-133 | a supported string operation runs as the one-element list holding it |
| FeatureSelect.OtherOperationReturnsError | pycytominer/feature_select.py:134-135 | an operation of another type makes the function return, not raise, a ValueError object |
| FeatureSelect.RemainingTwice | pycytominer/feature_select.py:198-199 | narrowing the list twice equals narrowing it once by everything excluded |
| FeatureSelect.ChainRemaining | pycytominer/feature_select.py:198-199 | before every operation the working list is the original features minus everything excluded so far, in order |
| FeatureSelect.LaterOperationsSkipExcluded | pycytominer/feature_select.py:198-199 | no operation is handed a feature that an earlier one excluded |
| FeatureSelect.NoiseWithoutParameters | pycytominer/feature_select.py:182-189 | noise_removal without both of its parameters raises the ValueError |
| FeatureSelect.ChainStep | pycytominer/feature_select.py:144-199 | one more operation either raises its own error or appends its exclusions and narrows the list |
| FeatureSelect.NoiseRemovalNeedsParameters | pycytominer/feature_select.py:182-189 | such a noise_removal stops the whole run with that ValueError |
| FeatureSelect.SelectedColumns | pycytominer/feature_select.py:201-205 | a successful run keeps exactly the columns no operation excluded, in original order and with their values, metadata included |
| Cells.Truncate | pycytominer/cyto_utils/cells.py:243 | int() of a float rounds toward zero |
| Strings.ParseInt | pycytominer/cyto_utils/cells.py:243 | text is read as an integer exactly when, stripped of white space, it is an optionally signed run of digits |
| Cells.PyInt | pycytominer/cyto_utils/cells.py:243 | int() keeps integers, truncates floats toward zero, parses ASCII decimal text with surrounding ASCII white space and an optional sign, and raises ValueError for other text, TypeError for other types |
| Cells.SubsamplingCheck | pycytominer/cyto_utils/cells.py:181-193 | passes exactly when the fraction is 1 or n is "all", else the assertion message |
| Cells.WithOutputFile | pycytominer/cyto_utils/cells.py:195-209 | only the output file changes |
| Cells.WithSubsampleFrac | pycytominer/cyto_utils/cells.py:211-226 | the fraction is stored whatever happens, then the subsampling check decides |
| Cells.WithSubsampleN | pycytominer/cyto_utils/cells.py:228-246 | a coercible value is stored and then checked; a ValueError from int() leaves the state as it was and raises the setter's own message; other int() errors pass through |
| Cells.WithRandomState | pycytominer/cyto_utils/cells.py:248-262 | only the random state changes |
| Cells.SettersKeepSubsamplingValid | pycytominer/cyto_utils/cells.py:181-262 | from a valid object, any run of setters that raises nothing keeps fraction and n from both being set, and every exception is that assertion or a failed int() |
| Cells.SubsampleNFromText | pycytominer/cyto_utils/cells.py:242-243 | the decimal text of any integer, padded with whitespace, sets n to that integer |
| Cells.SubsampleNRejectsWords | pycytominer/cyto_utils/cells.py:242-245 | text without digits leaves the object unchanged and raises the setter's ValueError |
| Cells.ResetVariables | pycytominer/cyto_utils/cells.py:211-262 | the setter sequence fraction 0.8, 1, n 4, random state 42, fraction 0.8 ends with that assertion and the last fraction stored |
| Cells.LinkingCompartments | pycytominer/cyto_utils/cells.py:154-156 | a compartment list reaches the linking check as a list, the string "default" as the default |
| Cells.DefaultIsNotACompartment | pycytominer/cyto_utils/cells.py:120 | the string "default" fails the compartment check |
| Cells.SingleNameRejected | pycytominer/cyto_utils/cells.py:120-156 | a single accepted compartment name passes the first check and then always fails the linking check |
| Cells.InitialSubsampleN | pycytominer/cyto_utils/cells.py:163-171 | "all" keeps the state; otherwise int() runs, and a fraction other than 1 then fails the subsampling check; a result is valid and differs only in n |
| Cells.Checked | pycytominer/cyto_utils/cells.py:120-161 | compartments are checked first, then the operation, then the fraction range, then the linking columns; a result stores the lower-cased operation, the fraction, the compartments, the rename map and both flags false |
| Cells.Linked | pycytominer/cyto_utils/cells.py:130-161 | succeeds exactly when the linking columns are complete for the compartments, and then stores every field as given with the rename map |
| Cells.Construct | pycytominer/cyto_utils/cells.py:118-171 | the checks, then n; a result keeps fraction and n from both being set, and n is "all" exactly when it was given as "all" |
| Cells.SingleCells.Create | pycytominer/cyto_utils/cells.py:95-171 | a new object whose fields are those Construct gives, or Construct's exception |
| Cells.SingleCells.CheckArguments | pycytominer/cyto_utils/cells.py:120-161 | the source's own checks in order give exactly Checked's result |
| Cells.SingleCells.CheckLinks | pycytominer/cyto_utils/cells.py:154-161 | the linking check and the rename map give exactly Linked's result |
| Cells.SingleCells.CheckSubsampling | pycytominer/cyto_utils/cells.py:181-193 | the check on the object's current fields |
| Cells.SingleCells.SetOutputFile | pycytominer/cyto_utils/cells.py:195-209 | the object's fields change as WithOutputFile says |
| Cells.SingleCells.SetSubsampleFrac | pycytominer/cyto_utils/cells.py:211-226 | the object's fields and the outcome are as WithSubsampleFrac says |
| Cells.SingleCells.SetSubsampleN | pycytominer/cyto_utils/cells.py:228-246 | the object's fields and the outcome are as WithSubsampleN says |
| Cells.SingleCells.SetSubsampleRandomState | pycytominer/cyto_utils/cells.py:248-262 | the object's fields change as WithRandomState says |
| Cells.SingleCells.SplitColumnCategories | pycytominer/cyto_utils/cells.py:433-443 | the loop returns the names not starting with a compartment as metadata and the others as features, each in input order |
| Cells.SplitStep | pycytominer/cyto_utils/cells.py:437-441 | one more name goes to exactly one of the two lists |
| Cells.SplitPartitions | pycytominer/cyto_utils/cells.py:433-443 | together the lists hold each name exactly as often as the input |
| Cells.SplitKeepsOrder | pycytominer/cyto_utils/cells.py:433-443 | each list keeps the input order |
| Cells.SplitIgnoresCase | pycytominer/cyto_utils/cells.py:438 | letter case never changes a name's category |
| Cells.StrataGuard | pycytominer/cyto_utils/cells.py:626-628 | passes exactly for a positive number of strata, else the assertion message |
| Cells.Lookup | pycytominer/cyto_utils/cells.py:721 | the first entry for a compartment, absent exactly when the compartment is not a key |
| Cells.LookupColumn | pycytominer/cyto_utils/cells.py:733-735 | the first linking column for a compartment, absent exactly when it is not a key |
| Cells.ReverseLink | pycytominer/cyto_utils/cells.py:736-738 | the right compartment's column for the left one, or KeyError when either key is missing |
| Cells.EntryAbsorbs | pycytominer/cyto_utils/cells.py:720-762 | after an exception the inner loop does nothing more |
| Cells.EntryFailsFrom | pycytominer/cyto_utils/cells.py:720-762 | the first failing link decides the inner loop's exception |
| Cells.EntriesFailFrom | pycytominer/cyto_utils/cells.py:720-762 | the first failing compartment decides the outer loop's exception |
| Cells.MergeEntryLoop | pycytominer/cyto_utils/cells.py:721-762 | the inner loop computes exactly the merges of one compartment's links |
| Cells.MergeSingleCellsPlan | pycytominer/cyto_utils/cells.py:716-762 | the nested loop computes exactly the planned merges, including the TypeError for the "default" string |
| Cells.MergeAtKeepsPlanned | pycytominer/cyto_utils/cells.py:723-762 | one more merge keeps the pair keys distinct, reads the right column from the reverse link and adds two suffixes |
| Cells.MergeAtGrows | pycytominer/cyto_utils/cells.py:723-762 | a merge step keeps every earlier pair key and adds its own |
| Cells.MergeEntryKeepsPlanned | pycytominer/cyto_utils/cells.py:721-762 | the inner loop keeps the plan well formed |
| Cells.MergeEntryGrows | pycytominer/cyto_utils/cells.py:721-762 | after the inner loop every link of that compartment has its pair key recorded |
| Cells.PlanWellPlanned | pycytominer/cyto_utils/cells.py:720-762 | the outer loop keeps the plan well formed |
| Cells.PlanCoversEveryLink | pycytominer/cyto_utils/cells.py:720-762 | every link of the map has its pair key recorded |
| Cells.PlanMergesEachPairOnce | pycytominer/cyto_utils/cells.py:720-762 | a successful plan merges each unordered compartment pair once, reads each right column from the reverse link, and covers every link |
| Cells.Suffixed | pycytominer/cyto_utils/cells.py:772-773 | one name per suffix, the column followed by that suffix |
| Cells.FullMergeSuffixRename | pycytominer/cyto_utils/cells.py:765-780 | the rename map sends every column, bare and with each merge suffix, to Metadata_ followed by that name |
| Cells.SuffixedNamesStep | pycytominer/cyto_utils/cells.py:771-776 | one more column appends its suffixed names |
| Cells.BareNames | pycytominer/cyto_utils/cells.py:767-769 | the first loop lists every column and its Metadata_ name |
| Cells.AppendSuffixed | pycytominer/cyto_utils/cells.py:772-776 | the inner loop appends the column with each suffix and keeps the two lists parallel |
| Cells.ZipRename | pycytominer/cyto_utils/cells.py:778-780 | zipping the parallel lists gives the Metadata_ rename map |
| Cells.SuffixedNamesMember | pycytominer/cyto_utils/cells.py:771-776 | a name is suffixed exactly when it is some column followed by some suffix |
| Cells.RenameMapCovers | pycytominer/cyto_utils/cells.py:765-780 | the rename map holds exactly the bare and the suffixed columns, each sent to Metadata_ followed by itself |
| Cells.Quoted | pycytominer/cyto_utils/cells.py:950-953 | text-typed values are put in single quotes, others kept |
| Cells.RowCondition | pycytominer/cyto_utils/cells.py:949-958 | fails exactly when a column has no type (KeyError) or a value list is empty |
| Cells.RowConditions | pycytominer/cyto_utils/cells.py:947-958 | succeeds exactly when every row does, with one condition per row in order |
| Cells.Grouped | pycytominer/cyto_utils/cells.py:959-961 | one string per chunk of n conditions |
| Cells.StrataConditions | pycytominer/cyto_utils/cells.py:901-962 | a row's exception comes first; then n 0 raises ValueError and a negative n gives no strings |
| Cells.RowConditionsFailFrom | pycytominer/cyto_utils/cells.py:948-958 | the first failing row decides the exception |
| Cells.RowConditionsLoop | pycytominer/cyto_utils/cells.py:947-958 | the row loop computes exactly the row conditions |
| Cells.SqliteStrataConditions | pycytominer/cyto_utils/cells.py:947-962 | the loop and the comprehension compute exactly StrataConditions |
| Cells.StrataGroups | pycytominer/cyto_utils/cells.py:959-961 | with n positive there are ceil(rows / n) strings, and string i joins the conditions of rows i*n to (i+1)*n with " or " |
| Cells.GroupedByOne | pycytominer/cyto_utils/cells.py:913-918 | with n 1 each row's condition is its own string |
| Cells.TwoColumnRow | pycytominer/cyto_utils/cells.py:935-939 | a one-value and a three-value column render as the documented example |
| Cells.TextValueQuoted | pycytominer/cyto_utils/cells.py:941-945 | a single text value is quoted and written bare inside the parentheses |
| LinkingCols.PairKey | pycytominer/cyto_utils/single_cell_ingest_utils.py:79 | the two names joined by a hyphen, smaller first |
| LinkingCols.PairKeyInjective | pycytominer/cyto_utils/single_cell_ingest_utils.py:79 | without hyphens in the names a pair key determines its unordered pair |
| LinkingCols.DefaultLinkingCols | pycytominer/cyto_utils/single_cell_ingest_utils.py:11-31 | a dictionary keyed cytoplasm, cells, nuclei, with linking columns Cytoplasm_Parent_Cells, Cytoplasm_Parent_Nuclei, ObjectNumber, ObjectNumber |
| LinkingCols.DefaultLinksSymmetric | pycytominer/cyto_utils/single_cell_ingest_utils.py:19-20 | the defaults link cytoplasm with cells and with nuclei, both ways, as documented |
| LinkingCols.FirstFailing | pycytominer/cyto_utils/single_cell_ingest_utils.py:71-79 | the first name that fails the test, absent exactly when all pass |
| LinkingCols.LinkingColsComplete | pycytominer/cyto_utils/single_cell_ingest_utils.py:55-67 | a non-dictionary map raises its ValueError, then a non-list compartments argument its own; "default" resolves to the defaults |
| LinkingCols.CheckResolved | pycytominer/cyto_utils/single_cell_ingest_utils.py:69-94 | every failure of the resolved check is a ValueError |
| LinkingCols.CheckPairs | pycytominer/cyto_utils/single_cell_ingest_utils.py:81-94 | every failure of the count and coverage checks is a ValueError |
| LinkingCols.ReportedUnknown | pycytominer/cyto_utils/single_cell_ingest_utils.py:71-78 | the first unlisted name after listed ones is the one found |
| LinkingCols.AssertLinkingColsComplete | pycytominer/cyto_utils/single_cell_ingest_utils.py:34-94 | the loops compute exactly LinkingColsComplete |
| LinkingCols.CheckLoops | pycytominer/cyto_utils/single_cell_ingest_utils.py:69-94 | the scan, the count and the comparison compute exactly CheckResolved |
| LinkingCols.ScanEntry | pycytominer/cyto_utils/single_cell_ingest_utils.py:72-79 | one outer pass records the key and its inner keys and their pair keys, or stops at the first unlisted name, which is the first unlisted name of the whole map |
| LinkingCols.ScanInner | pycytominer/cyto_utils/single_cell_ingest_utils.py:75-79 | the inner loop records each inner key and its pair key, or stops at the first unlisted inner key, which is the first unlisted name of the whole map |
| LinkingCols.UnknownOuter | pycytominer/cyto_utils/single_cell_ingest_utils.py:72-74 | an unlisted outer key after listed names is the one reported |
| LinkingCols.UnknownInner | pycytominer/cyto_utils/single_cell_ingest_utils.py:75-78 | an unlisted inner key after listed names is the one reported |
| LinkingCols.CountPairs | pycytominer/cyto_utils/single_cell_ingest_utils.py:81-94 | the Counter loop and the sorted comparison compute exactly CheckPairs |
| LinkingCols.FindMiscount | pycytominer/cyto_utils/single_cell_ingest_utils.py:81-84 | the loop reports the first distinct pair key that does not occur exactly twice, and none when all do |
| LinkingCols.CompleteIff | pycytominer/cyto_utils/single_cell_ingest_utils.py:69-94 | a resolved map passes exactly when every mentioned name is a compartment, every pair key occurs twice and the sorted mentioned set equals the sorted compartments |
| LinkingCols.PairsPassIff | pycytominer/cyto_utils/single_cell_ingest_utils.py:81-94 | the pair checks pass exactly when every pair key occurs twice and the sorted mentioned set equals the sorted compartments |
| LinkingCols.MiscountNoneIff | pycytominer/cyto_utils/single_cell_ingest_utils.py:81-84 | the Counter loop finds no miscounted key exactly when every pair key occurs twice |
| LinkingCols.UnknownCompartmentReported | pycytominer/cyto_utils/single_cell_ingest_utils.py:73-78 | the first mentioned name that is not a compartment raises "<name> compartment not found. Check the specified compartments" |
| LinkingCols.DuplicateCompartmentFails | pycytominer/cyto_utils/single_cell_ingest_utils.py:88-94 | a compartment listed twice can never pass |
| LinkingCols.DuplicateNeverSorted | pycytominer/cyto_utils/single_cell_ingest_utils.py:87-90 | a duplicate-free sorted set of names never equals the sorted list of compartments when that list holds a duplicate |
| LinkingCols.UnmentionedCompartmentFails | pycytominer/cyto_utils/single_cell_ingest_utils.py:87-94 | a compartment the map never mentions can never pass |
| LinkingCols.CountKeysSingle | pycytominer/cyto_utils/single_cell_ingest_utils.py:79-85 | a pair whose key no other pair shares is counted once |
| LinkingCols.LinkPairsNoDup | pycytominer/cyto_utils/single_cell_ingest_utils.py:71-79 | a dictionary yields each key pair once |
| LinkingCols.PassingMapIsSymmetric | pycytominer/cyto_utils/single_cell_ingest_utils.py:19-85 | a map that passes, with hyphen-free names, has every link in both directions between two different compartments |
| LinkingCols.OnlyOneDirectionMiscounted | pycytominer/cyto_utils/single_cell_ingest_utils.py:81-85 | when every pair key occurs twice, each link has its reverse and joins two different compartments |
| LinkingCols.DefaultsComplete | pycytominer/cyto_utils/single_cell_ingest_utils.py:55-94 | the default map passes against the default compartments |
| LinkingCols.ProvideLinkingColsFeatureNameUpdate | pycytominer/cyto_utils/single_cell_ingest_utils.py:97-127 | the update maps exactly the linking columns, each to Metadata_ followed by its name |
| LinkingCols.RenameLoop | pycytominer/cyto_utils/single_cell_ingest_utils.py:121-126 | the dictionary built one column at a time is exactly the rename map of the columns |
| LinkingCols.GatherLinkingColumns | pycytominer/cyto_utils/single_cell_ingest_utils.py:116-119 | the nested loop collects every linking column in iteration order |
| LinkingCols.DefaultFeatureNameUpdate | pycytominer/cyto_utils/single_cell_ingest_utils.py:113-127 | with the defaults the update has the three distinct linking columns |
| LinkingCols.RenameRepeatedLast | pycytominer/cyto_utils/single_cell_ingest_utils.py:121-126 | a repeated linking column gives one entry |
| Merge.FirstMissing | pycytominer/cyto_utils/cp_image_features.py:84 | the first key column the table lacks, absent exactly when it has them all |
| Merge.KeyOf | pycytominer/cyto_utils/cp_image_features.py:84 | a row's cells in the key columns, in key order |
| Merge.Matches | pycytominer/cyto_utils/cp_image_features.py:84 | exactly the right rows with the given key, each once |
| Merge.ExtraColumns | pycytominer/cyto_utils/cp_image_features.py:84 | exactly the right columns that are not keys |
| Merge.Extra | pycytominer/cyto_utils/cp_image_features.py:84 | a right row's cells in the added columns |
| Merge.Nulls | pycytominer/cyto_utils/cp_image_features.py:84 | n missing cells |
| Merge.MergedRows | pycytominer/cyto_utils/cp_image_features.py:84 | a left row yields at least one output row, each beginning with that row |
| Merge.LeftMerge | pycytominer/cyto_utils/cp_image_features.py:84 | raises KeyError exactly when a key column is missing on either side; otherwise the left columns then the right non-key ones, a name both sides carry suffixed _x and _y, and at least as many rows as the left |
| Merge.MergedColumns | pycytominer/cyto_utils/cp_image_features.py:84 | one output name per left column and per added right column |
| Merge.MergedColumnsPlain | pycytominer/cyto_utils/cp_image_features.py:84 | without a shared non-key name the output names are the left names followed by the added right names |
| Merge.SharedSuffixed | pycytominer/cyto_utils/cp_image_features.py:84 | a non-key name on both sides appears as name_x and name_y |
| Merge.UnsharedPlain | pycytominer/cyto_utils/cp_image_features.py:84 | a key column or a left name the right lacks keeps its name |
| Merge.ExtraUnsharedPlain | pycytominer/cyto_utils/cp_image_features.py:84 | an added right name the left lacks keeps its name |
| Merge.AbsentFromMerge | pycytominer/cyto_utils/cp_image_features.py:84 | a name on neither side that ends in neither x nor y is no output column |
| Merge.EveryLeftRowKept | pycytominer/cyto_utils/cp_image_features.py:84 | a left merge never drops a left row |
| Merge.UniqueKeysOneRowEach | pycytominer/cyto_utils/cp_image_features.py:84 | with distinct right keys each left row yields exactly one output row, in order |
| Merge.UniqueKeysMatched | pycytominer/cyto_utils/cp_image_features.py:84 | with distinct right keys a matched left row is followed by its match's cells |
| Merge.Unmatched | pycytominer/cyto_utils/cp_image_features.py:84 | an unmatched left row is padded with missing values |
| ImageFeatures.UniqueColumns | pycytominer/cyto_utils/cp_image_features.py:32 | selecting the sorted union of names needs exactly the names themselves |
| ImageFeatures.Sites | pycytominer/cyto_utils/cp_image_features.py:35-36 | a group's site count never exceeds its number of rows |
| ImageFeatures.FieldsCount | pycytominer/cyto_utils/cp_image_features.py:11-41 | raises KeyError exactly when a stratum or the field-of-view column is missing; otherwise the strata followed by Metadata_Site_Count |
| ImageFeatures.FieldsCountShape | pycytominer/cyto_utils/cp_image_features.py:34-39 | one row per group key without a missing value, in key order, holding the key and its number of non-missing fields of view |
| ImageFeatures.FieldsCountFromGroups | pycytominer/cyto_utils/cp_image_features.py:34-39 | every output row is the key of some image row, without a missing value, with its count |
| ImageFeatures.FieldsCountCovers | pycytominer/cyto_utils/cp_image_features.py:34-39 | every image row whose key has no missing value has its group in the output |
| ImageFeatures.FieldsCountSorted | pycytominer/cyto_utils/cp_image_features.py:35-37 | the output rows are in strictly ascending key order |
| ImageFeatures.CountFeatures | pycytominer/cyto_utils/cp_image_features.py:74-78 | exactly the columns starting with the prefix, in column order |
| ImageFeatures.SummedColumns | pycytominer/cyto_utils/cp_image_features.py:81-83 | the count columns that are not strata |
| ImageFeatures.SumCell | pycytominer/cyto_utils/cp_image_features.py:83 | a group sum is a number, zero for a group without values (never missing) |
| ImageFeatures.SumCellAppend | pycytominer/cyto_utils/cp_image_features.py:83 | one more cell adds its number to the group sum, and a missing cell adds nothing |
| ImageFeatures.Sums | pycytominer/cyto_utils/cp_image_features.py:83 | each count column summed over the group |
| ImageFeatures.CountSums | pycytominer/cyto_utils/cp_image_features.py:81-83 | one row per group key, missing keys kept, with the strata then the summed columns |
| ImageFeatures.CountMerge | pycytominer/cyto_utils/cp_image_features.py:82-84 | fails exactly when the profiles lack a stratum; otherwise the merged names of the profiles and the sums table, which are the profile columns plus the summed count columns when no count column is already a profile column, and at least as many rows |
| ImageFeatures.CountStep | pycytominer/cyto_utils/cp_image_features.py:44-86 | raises KeyError exactly when a stratum is missing; otherwise the merge of the summed count columns and the sorted, duplicate-free union of the image columns and the count columns; the columns are the profile and count columns when no count column is already a profile column |
| ImageFeatures.CountStepLacks | pycytominer/cyto_utils/cp_image_features.py:74-84 | a name that is no profile column and does not match the count pattern is not added |
| ImageFeatures.CountStepHas | pycytominer/cyto_utils/cp_image_features.py:74-84 | a matching image column that is no profile column and no stratum is added |
| ImageFeatures.CountMergeHas | pycytominer/cyto_utils/cp_image_features.py:82-84 | a summed column that is no profile column and no stratum is added by the merge |
| ImageFeatures.CountSumsKeys | pycytominer/cyto_utils/cp_image_features.py:83 | the sums table is keyed by its first columns, one row per distinct key with that group's sums |
| ImageFeatures.CountMergeRows | pycytominer/cyto_utils/cp_image_features.py:84 | with distinct strata the count merge keeps exactly the profile rows, appending the sums of their group or missing values when no image row has the key |
| ImageFeatures.OtherCategoriesExist | pycytominer/cyto_utils/cp_image_features.py:137 | the set difference is non-empty exactly when some category other than the prefix is requested |
| ImageFeatures.OtherFeatures | pycytominer/cyto_utils/cp_image_features.py:141 | the sorted, duplicate-free non-strata columns |
| ImageFeatures.CountPhase | pycytominer/cyto_utils/cp_image_features.py:125-134 | with the prefix requested, the count step; otherwise the profiles and the image columns plus the Metadata_ prefix columns slated for removal |
| ImageFeatures.OtherStep | pycytominer/cyto_utils/cp_image_features.py:138-153 | the aggregation merged onto the counted profiles keeps every row and column |
| ImageFeatures.AggregateImageFeatures | pycytominer/cyto_utils/cp_image_features.py:89-155 | a result follows a successful count phase and keeps every profile row; with nothing else requested the count phase's profiles are the result |
| ImageFeatures.OnlyCounts | pycytominer/cyto_utils/cp_image_features.py:125-137 | when only counts are requested the result is the count step's merge |
| ImageFeatures.NothingRequested | pycytominer/cyto_utils/cp_image_features.py:129-137 | with no category requested the profiles come back unchanged |
| ImageFeatures.OtherFeaturesAggregated | pycytominer/cyto_utils/cp_image_features.py:137-153 | other features are aggregated over the image table without the removed columns, on every remaining non-strata column in sorted order, and merged onto the counted profiles; the aggregate's error, such as the ValueError of a text column that does not cast, is the result |
| ImageFeatures.OtherStepKeepsRow | pycytominer/cyto_utils/cp_image_features.py:153 | the merge of the other features keeps every counted row at the start of some output row |
| ImageFeatures.CountPhaseKeepsRow | pycytominer/cyto_utils/cp_image_features.py:84 | the count merge keeps every profile row at the start of some output row |
| ImageFeatures.EveryProfileRowKept | pycytominer/cyto_utils/cp_image_features.py:84-153 | neither left merge drops a profile row |
| ImageFeatures.PrefixNotForwarded | pycytominer/cyto_utils/cp_image_features.py:125-128 | as written, with count_prefix "Cnt" a Metadata_Cnt_ column is never summed onto the profiles; with the prefix forwarded it is |
| ImageFeatures.ForwardedPrefixSums | pycytominer/cyto_utils/cp_image_features.py:74-86 | with the prefix forwarded the call succeeds, and its columns are the profile columns and the requested prefix's count columns when none of those is already a profile column |
| LegacyImageAggregate.GroupOperation | pycytominer/cyto_utils/cp_aggregate.py:131-134 | the median exactly for "median", the mean for anything else |
| LegacyImageAggregate.Aggregates | pycytominer/cyto_utils/cp_aggregate.py:127-134 | every feature aggregated over a group |
| LegacyImageAggregate.Others | pycytominer/cyto_utils/cp_aggregate.py:127-134 | the non-strata columns, in frame order |
| LegacyImageAggregate.GroupedOthers | pycytominer/cyto_utils/cp_aggregate.py:127-134 | raises KeyError exactly when a stratum is missing and TypeError exactly when the strata exist but an aggregated column holds text; otherwise one row per key, missing keys included, in key order, with the key and its aggregates |
| LegacyImageAggregate.LegacyCountPhase | pycytominer/cyto_utils/cp_aggregate.py:109-118 | with "Count" requested, the count step on Image_Count columns; otherwise the profiles and the columns slated for removal |
| LegacyImageAggregate.LegacyImageFeatures | pycytominer/cyto_utils/cp_aggregate.py:77-138 | a result keeps every profile row; with nothing besides counts requested it is the count phase's profiles |
| LegacyImageAggregate.DropIfStillPresent | pycytominer/cyto_utils/cp_aggregate.py:124-125 | a column is dropped only when present |
| LegacyImageAggregate.DropEach | pycytominer/cyto_utils/cp_aggregate.py:123-125 | the loop drops exactly the removed columns that are present |
| LegacyImageAggregate.LegacyAggregateImageFeatures | pycytominer/cyto_utils/cp_aggregate.py:77-138 | the loop version computes exactly LegacyImageFeatures |
| LegacyImageAggregate.AnyOtherOperationIsMean | pycytominer/cyto_utils/cp_aggregate.py:131-134 | any operation other than exactly "median", "Median" included, aggregates by the mean |
| LegacyImageAggregate.SameGroupOperation | pycytominer/cyto_utils/cp_aggregate.py:131-134 | two operation names that choose the same pandas method give the same grouped table |
| LegacyImageAggregate.LegacyOnlyCounts | pycytominer/cyto_utils/cp_aggregate.py:40-121 | when only counts are requested the result is the count step, whose columns are the profile columns and the Image_Count columns when none of those is already a profile column |
| LegacyImageAggregate.CountsRemovedWhenNotRequested | pycytominer/cyto_utils/cp_aggregate.py:113-118 | without "Count" the Image_Count columns are only slated for removal, never merged |
| ParseCpFeatures.TokenizeFeature | pycytominer/cyto_utils/parse_cp_features.py:41-45 | the loop replaces each channel, in order, by its tokenised form |
| ParseCpFeatures.Parts | pycytominer/cyto_utils/parse_cp_features.py:47 | splitting on "_" gives at least one token |
| ParseCpFeatures.FromParts | pycytominer/cyto_utils/parse_cp_features.py:49-137 | the feature is returned as given; fewer than two tokens raise IndexError at the group lookup |
| ParseCpFeatures.ParseCpFeatures | pycytominer/cyto_utils/parse_cp_features.py:31-137 | a non-string feature raises "Expected a string, got <type>", then a non-list channels argument "Expected a list, got <type>"; one token raises IndexError; a result names the feature as given |
| ParseCpFeatures.ParseFeature | pycytominer/cyto_utils/parse_cp_features.py:31-137 | the type checks, the tokenising loop and the rules compute exactly ParseCpFeatures |
| ParseCpFeatures.TokenizeChannelPieces | pycytominer/cyto_utils/parse_cp_features.py:44 | a tokenised channel is its "_"-pieces joined by the placeholder, with no "_" left |
| ParseCpFeatures.StandardizeNoPieces | pycytominer/cyto_utils/parse_cp_features.py:37-39 | a channel holding neither "_" nor the letter O is not changed by the standardiser |
| ParseCpFeatures.ChannelSurvives | pycytominer/cyto_utils/parse_cp_features.py:41-129 | a channel name holding "_", such as mito_tubeness, is one token once tokenised and is reported whole |
| ParseCpFeatures.OrigDropped | pycytominer/cyto_utils/parse_cp_features.py:37-127 | a leading "Orig" is dropped: OrigAGP is reported as AGP |
| ParseCpFeatures.ReportedUnchanged | pycytominer/cyto_utils/parse_cp_features.py:127-129 | a single token without "Orig" or the placeholder is reported as it is |
| ParseCpFeatures.UnknownReported | pycytominer/cyto_utils/parse_cp_features.py:54-129 | "XUNKNOWN" survives the standardiser |
| ParseCpFeatures.NotApplicableReported | pycytominer/cyto_utils/parse_cp_features.py:59-129 | "XNONE" survives the standardiser |
| ParseCpFeatures.UnknownCompartment | pycytominer/cyto_utils/parse_cp_features.py:50-54 | a first token that is not a compartment makes every component "XUNKNOWN" |
| ParseCpFeatures.KnownCompartment | pycytominer/cyto_utils/parse_cp_features.py:55-57 | a known compartment is reported with the second token as the group |
| ParseCpFeatures.KnownFields | pycytominer/cyto_utils/parse_cp_features.py:55-57 | the same for the fields before the channel is standardised |
| ParseCpFeatures.UnknownGroup | pycytominer/cyto_utils/parse_cp_features.py:123-125 | an unrecognised group makes the type and the channel "XUNKNOWN" |
| ParseCpFeatures.ShapeGroupFields | pycytominer/cyto_utils/parse_cp_features.py:61-80 | AreaShape-like groups read the type from the third token, which must exist, and have no channel |
| ParseCpFeatures.CountFields | pycytominer/cyto_utils/parse_cp_features.py:91-94 | Count features have neither type nor channel |
| ParseCpFeatures.LocationFields | pycytominer/cyto_utils/parse_cp_features.py:82-89 | "Center" has no channel; any other Location type reads the channel from the fifth token, which must exist |
| ParseCpFeatures.GranularityFields | pycytominer/cyto_utils/parse_cp_features.py:96-99 | Granularity has no type and reads the channel from the fourth token, which must exist |
| ParseCpFeatures.ChannelGroupFields | pycytominer/cyto_utils/parse_cp_features.py:101-121 | Intensity, ImageQuality, Texture and RadialDistribution read type and channel from the third and fourth tokens, which must exist |
| ParseCpFeatures.CorrelationFields | pycytominer/cyto_utils/parse_cp_features.py:108-114 | Correlation names both channels sorted and joined, so swapping them in the name changes nothing |
| ParseCpFeatures.CorrelationFieldsOf | pycytominer/cyto_utils/parse_cp_features.py:108-114 | the same before the channel is standardised |
| ParseCpFeatures.ChannelFeatureParsed | pycytominer/cyto_utils/parse_cp_features.py:116-129 | a channel feature whose channel holds "_" is parsed with the channel whole |
| ParseCpFeatures.TokenizedWithout | pycytominer/cyto_utils/parse_cp_features.py:43-45 | channels that do not occur leave the feature as it is |
| ParseCpFeatures.TokenizeOnce | pycytominer/cyto_utils/parse_cp_features.py:44-45 | a channel occurring once is replaced by its tokenised form in place |
| WriteGct.Annotation | pycytominer/cyto_utils/write_gct.py:80-93 | one annotation cell per annotation column of the feature metadata (one column by default) |
| WriteGct.SampleIds | pycytominer/cyto_utils/write_gct.py:66 | SAMPLE_0 to SAMPLE_n-1 |
| WriteGct.ColumnCells | pycytominer/cyto_utils/write_gct.py:57-65 | one rendered cell per profile, in row order |
| WriteGct.MetadataRows | pycytominer/cyto_utils/write_gct.py:65-73 | one row per metadata column |
| WriteGct.FeatureRows | pycytominer/cyto_utils/write_gct.py:57 | one row per feature |
| WriteGct.Body | pycytominer/cyto_utils/write_gct.py:79-94 | one header row, one row per metadata column and one per feature |
| WriteGct.Layout | pycytominer/cyto_utils/write_gct.py:97-105 | the version row and the dimensions row come before the body, three rows more than the metadata and features |
| WriteGct.MetadataNames | pycytominer/cyto_utils/write_gct.py:73 | each metadata row is named after its column with every "Metadata_" removed |
| WriteGct.CheckFeatureMetadata | pycytominer/cyto_utils/write_gct.py:80-84 | passes exactly when no frame is given or the frame has an "id" row |
| WriteGct.WriteRows | pycytominer/cyto_utils/write_gct.py:100-105 | the writer loop writes the version, the dimensions and every body row, in order |
| WriteGct.WriteGctRows | pycytominer/cyto_utils/write_gct.py:16-105 | the function computes exactly GctTable |
| WriteGct.GctSucceeds | pycytominer/cyto_utils/write_gct.py:52-84 | succeeds exactly when the version is #1.3, every named column exists and any annotation frame has an "id" row; a wrong version raises the version assertion |
| WriteGct.LayoutHead | pycytominer/cyto_utils/write_gct.py:66-103 | the first rows are the version, the four dimensions, and the id header with its annotation and the sample names |
| WriteGct.MetadataRowsAt | pycytominer/cyto_utils/write_gct.py:65-73 | metadata row i holds its written name, its annotation ("nan" by default) and profile j's value in column 1 + width + j |
| WriteGct.FeatureRowsAt | pycytominer/cyto_utils/write_gct.py:57-90 | feature row i holds its name, its annotation (the name by default) and profile j's value in column 1 + width + j |
| WriteGct.LayoutBlocks | pycytominer/cyto_utils/write_gct.py:79 | after the header come the metadata rows, then the feature rows |
| WriteGct.LayoutMetadataRow | pycytominer/cyto_utils/write_gct.py:65-79 | the written row of metadata column i |
| WriteGct.LayoutFeatureRow | pycytominer/cyto_utils/write_gct.py:57-79 | the written row of feature i, after all metadata rows |
| WriteGct.LayoutRenamed | pycytominer/cyto_utils/write_gct.py:73 | two layouts that differ only in the metadata row names differ only in the first cell of those rows |
| WriteGct.DefaultAnnotations | pycytominer/cyto_utils/write_gct.py:88-93 | without a frame there is one annotation column: "cp_feature_name", "nan" for each metadata row, and the feature name for each feature row |
| WriteGct.MetadataRowName | pycytominer/cyto_utils/write_gct.py:73 | a metadata column's row is named after the column without "Metadata_" |
| LegacyWriteGct.LegacyMetadataColumns | pycytominer/write_gct.py:39 | exactly the columns whose name contains "Metadata_", in frame order |
| LegacyWriteGct.StrippedName | pycytominer/write_gct.py:55 | lstrip never leaves a name starting with one of the characters of Metadata_ |
| LegacyWriteGct.PrefixRemoved | pycytominer/write_gct.py:55 | a name without the prefix is kept |
| LegacyWriteGct.StrippedNames | pycytominer/write_gct.py:55 | each metadata row name stripped |
| LegacyWriteGct.PrefixRemovedNames | pycytominer/write_gct.py:55 | each metadata row name without the prefix |
| LegacyWriteGct.LegacyGctTable | pycytominer/write_gct.py:16-73 | succeeds exactly when the version is #1.3 and the inferred features exist; a wrong version raises the assertion; the table has three rows more than the metadata columns and features, and its dimensions row counts one annotation column |
| LegacyWriteGct.LegacyGctTableIntended | pycytominer/write_gct.py:16-73 | the same success condition, row count and dimensions as the written version |
| LegacyWriteGct.LegacyWriteGctRows | pycytominer/write_gct.py:33-73 | the function computes the corrected table |
| LegacyWriteGct.LegacyLayouts | pycytominer/write_gct.py:37-65 | both versions lay out the same table with their own metadata row names |
| LegacyWriteGct.OnlyNamesDiffer | pycytominer/write_gct.py:55 | both versions write the same table except for the first cell of the metadata rows |
| LegacyWriteGct.StrippedLeadingT | pycytominer/write_gct.py:55 | as written, Metadata_t followed by a rest not starting with a stripped character loses the t (Metadata_treatment becomes reatment); removing the prefix keeps it |
| LegacyWriteGct.PrefixRemovedAfterPrefix | pycytominer/write_gct.py:55 | the intended name is the rest of the column name, whatever it starts with |
| LegacyWriteGct.StrippedAgrees | pycytominer/write_gct.py:55 | the two agree when the rest of the name does not start with a stripped character |
| SqliteConvert.DistinctJoinChunks | pycytominer/cyto_utils/sqlite/convert.py:65-68 | a zero chunk size raises the ValueError of range(); a negative one gives no chunks; otherwise the chunks concatenate back to the rows, none is empty or longer than the chunk size, and all but the last are full |
| SqliteConvert.DistinctJoinChunksAt | pycytominer/cyto_utils/sqlite/convert.py:65-68 | there are ceil(rows / size) chunks and chunk i is the slice of rows starting at i * size |
| SqliteConvert.TableColumns | pycytominer/cyto_utils/sqlite/convert.py:154-158 | exactly the column names the metadata lists for the table |
| SqliteConvert.ResultColumns | pycytominer/cyto_utils/sqlite/convert.py:153-170 | one result column per table column; without prepending, the table's own names |
| SqliteConvert.ResultColumnsDistinct | pycytominer/cyto_utils/sqlite/convert.py:159-167 | the aliased names stay distinct when the table's columns are distinct and none already starts with the table prefix |
| SqliteConvert.WhereClauseSnoc | pycytominer/cyto_utils/sqlite/convert.py:173-181 | one row gives its parenthesised AND group; each further row appends " OR " and its group |
| SqliteConvert.FillDtype | pycytominer/cyto_utils/sqlite/convert.py:212-213 | the intended dtype of a filled column is never an integer dtype, and a non-integer dtype is kept |
| SqliteConvert.FillDtypeInt64 | pycytominer/cyto_utils/sqlite/convert.py:213 | the written replace and the intended widening agree on int64 |
| SqliteConvert.FillDtypeOtherIntegers | pycytominer/cyto_utils/sqlite/convert.py:213 | as written, uint64 becomes ufloat64 and int32 keeps its name; the intended dtype for both is float64 |
| SqliteConvert.AbsentColumns | pycytominer/cyto_utils/sqlite/convert.py:214-215 | exactly the columns of fill_from that fill_into lacks, without duplicates when fill_from has none |
| SqliteConvert.NullColumn | pycytominer/cyto_utils/sqlite/convert.py:227-231 | a column of the row count, every cell missing |
| SqliteConvert.AppendNullColumns | pycytominer/cyto_utils/sqlite/convert.py:219-238 | the new columns are appended after the old ones, the row count stays, and the table stays well formed |
| SqliteConvert.AppendNullColumnsCells | pycytominer/cyto_utils/sqlite/convert.py:219-238 | old columns keep their cells and dtype; each appended column is all missing with the widened dtype |
| SqliteConvert.NanDataFill | pycytominer/cyto_utils/sqlite/convert.py:191-240 | the columns of fill_from missing from fill_into are appended after its own, the row count is kept, and the column set becomes the union |
| SqliteConvert.NanDataFillCells | pycytominer/cyto_utils/sqlite/convert.py:211-238 | existing columns keep cells and dtype; an added column is all missing with its dtype made able to hold NaN |
| SqliteConvert.NanDataFillDistinct | pycytominer/cyto_utils/sqlite/convert.py:211-238 | filling keeps the column names distinct |
| SqliteConvert.NanDataFillAsWritten | pycytominer/cyto_utils/sqlite/convert.py:211-238 | as written, the fill raises TypeError exactly when it adds a uint64 column, and otherwise is the fill NanDataFill describes |
| SqliteConvert.UnsignedFillFails | pycytominer/cyto_utils/sqlite/convert.py:211-231 | filling from a table with a uint64 column the other lacks asks for ufloat64 and fails |
| SqliteConvert.ConcatRows | pycytominer/cyto_utils/sqlite/convert.py:314 | the rows of the first frame then those of the second, column by column, in the first frame's column order |
| SqliteConvert.FillsAgree | pycytominer/cyto_utils/sqlite/convert.py:307-311 | filling each frame from the other gives both the same columns |
| SqliteConvert.Stacked | pycytominer/cyto_utils/sqlite/convert.py:305-314 | filling both frames and stacking them gives a well-formed table |
| SqliteConvert.Step | pycytominer/cyto_utils/sqlite/convert.py:299-314 | an empty running result is replaced by the next frame |
| SqliteConvert.StepStacks | pycytominer/cyto_utils/sqlite/convert.py:303-314 | otherwise the rows add up and the columns become the union, the new ones after the old |
| SqliteConvert.Concatenated | pycytominer/cyto_utils/sqlite/convert.py:283-314 | the running result over the tables is a well-formed table |
| SqliteConvert.ConcatenatedSnoc | pycytominer/cyto_utils/sqlite/convert.py:288-314 | the result after one more table is one more loop step |
| SqliteConvert.ConcatenatedUnion | pycytominer/cyto_utils/sqlite/convert.py:283-314 | when every query returns rows, the result holds the rows of all tables and exactly the union of their columns |
| SqliteConvert.EmptyResultReplaced | pycytominer/cyto_utils/sqlite/convert.py:299-301 | while the running result has no rows, the next table replaces it, so the columns read before are lost |
| SqliteConvert.ConcatOne | pycytominer/cyto_utils/sqlite/convert.py:299-314 | the loop body computes exactly one step |
| SqliteConvert.TableConcatToParquet | pycytominer/cyto_utils/sqlite/convert.py:244-320 | the loop computes the concatenation over all tables, and the name returned is the unique parquet name |
| SqliteConvert.UniqueParquetName | pycytominer/cyto_utils/sqlite/convert.py:324-351 | the name is the prefix, a hyphen and the hex of the UUID |
| SqliteConvert.UniqueParquetNamesDiffer | pycytominer/cyto_utils/sqlite/convert.py:342-345 | two different UUIDs give two different names for the same prefix |
| DeepProfiler.NormalizedExtension | pycytominer/cyto_utils/DeepProfiler_processing.py:59-61 | the stored extension starts with "."; it is the given one or the given one with a dot in front |
| DeepProfiler.NormalizedExtensionIdempotent | pycytominer/cyto_utils/DeepProfiler_processing.py:60-61 | an extension with its dot is kept, any other gets one, and normalising twice changes nothing |
| DeepProfiler.FilenameFromIndex | pycytominer/cyto_utils/DeepProfiler_processing.py:75-84 | plate, well and site joined by two underscores, ending in the extension |
| DeepProfiler.Filenames | pycytominer/cyto_utils/DeepProfiler_processing.py:64-73 | one name per index row, in order, under the profile directory |
| DeepProfiler.ExtractFilenameMetadata | pycytominer/cyto_utils/DeepProfiler_processing.py:86-95 | an empty delimiter raises ValueError; a result's well and site hold no delimiter |
| DeepProfiler.StrippedName | pycytominer/cyto_utils/DeepProfiler_processing.py:83-90 | stripping the characters of ".npz" from a built name leaves plate_well_site when the parts allow |
| DeepProfiler.ExtractBuilt | pycytominer/cyto_utils/DeepProfiler_processing.py:75-95 | parsing a built name with the default delimiter gives back the row's plate, well and site, when well and site hold no "_", no part holds "/" and the stripped characters do not eat into the name |
| DeepProfiler.OtherDelimiterFails | pycytominer/cyto_utils/DeepProfiler_processing.py:83-92 | a delimiter that occurs nowhere in a built name leaves one piece, so the well lookup raises IndexError |
| DeepProfiler.GroupKey | pycytominer/cyto_utils/DeepProfiler_processing.py:106-114 | a level other than site, well or plate raises KeyError with the level quoted; plate groups by the plate |
| DeepProfiler.SiteKeysDistinct | pycytominer/cyto_utils/DeepProfiler_processing.py:108-111 | at the site level two files share a key exactly when plate, well and site all agree (under the model's no-underscore precondition) |
| DeepProfiler.WellKeysDistinct | pycytominer/cyto_utils/DeepProfiler_processing.py:113-114 | at the well level two files share a key exactly when plate and well agree |
| DeepProfiler.FileKey | pycytominer/cyto_utils/DeepProfiler_processing.py:105-114 | the key succeeds only when the metadata parse does, and carries that metadata |
| DeepProfiler.AddFile | pycytominer/cyto_utils/DeepProfiler_processing.py:116-122 | the file is appended to the list of its key, created when missing, the key's metadata is replaced, and other keys are untouched |
| DeepProfiler.FilesWithKeyMember | pycytominer/cyto_utils/DeepProfiler_processing.py:104-120 | a file is listed under a key exactly when it is one of the files and has that key |
| DeepProfiler.FillPasses | pycytominer/cyto_utils/DeepProfiler_processing.py:104-122 | the loop ends normally exactly when every file has metadata and a key |
| DeepProfiler.GroupSnocSame | pycytominer/cyto_utils/DeepProfiler_processing.py:116-122 | the group of the added file's key holds the earlier files with that key, then the file, and the file's metadata |
| DeepProfiler.GroupSnocOther | pycytominer/cyto_utils/DeepProfiler_processing.py:116-122 | every other group keeps its files and metadata |
| DeepProfiler.GroupedSnoc | pycytominer/cyto_utils/DeepProfiler_processing.py:116-122 | adding one file keeps the invariant that each group holds exactly the files with its key |
| DeepProfiler.FillGroups | pycytominer/cyto_utils/DeepProfiler_processing.py:103-122 | after a normal end every file is in the group of its key, in input order, and each group holds the metadata of its last file |
| DeepProfiler.FileInOneGroup | pycytominer/cyto_utils/DeepProfiler_processing.py:103-122 | after a normal end a file lies in the group of its own key and in no other |
| DeepProfiler.FillNext | pycytominer/cyto_utils/DeepProfiler_processing.py:104-122 | one more file either raises, keeping the dictionary, or is added to it |
| DeepProfiler.FillStops | pycytominer/cyto_utils/DeepProfiler_processing.py:104-106 | the first file that raises ends the loop with the files before it grouped |
| DeepProfiler.FillFailed | pycytominer/cyto_utils/DeepProfiler_processing.py:104-106 | once a prefix has raised, later files change nothing |
| DeepProfiler.FillFirstFails | pycytominer/cyto_utils/DeepProfiler_processing.py:104-106 | when the first file raises, the dictionary stays empty |
| DeepProfiler.Initial | pycytominer/cyto_utils/DeepProfiler_processing.py:41-61 | a new object has an extension starting with ".", no file names and no file dictionary |
| DeepProfiler.AggregateSetup | pycytominer/cyto_utils/DeepProfiler_processing.py:97-122 | setup always leaves file names and a dictionary, keeps file names built before, and changes no other field |
| DeepProfiler.UnknownLevelFails | pycytominer/cyto_utils/DeepProfiler_processing.py:106 | an unknown level raises KeyError at the first file, leaving the dictionary empty |
| DeepProfiler.FileEntry | pycytominer/cyto_utils/DeepProfiler_processing.py:105-114 | the loop body's parse and key computation give exactly the file's key and metadata |
| DeepProfiler.AggregateDeepProfiler.constructor | pycytominer/cyto_utils/DeepProfiler_processing.py:41-61 | the object stores its arguments with the extension normalised |
| DeepProfiler.AggregateDeepProfiler.BuildFilenames | pycytominer/cyto_utils/DeepProfiler_processing.py:64-73 | only the file names change, to one name per index row |
| DeepProfiler.AggregateDeepProfiler.SetupAggregate | pycytominer/cyto_utils/DeepProfiler_processing.py:97-122 | the loop leaves the object and the outcome that the setup specification computes |
| Pooled.Titled | pycytominer/pooled/process.py:110 | one title-cased name per compartment |
| Pooled.CapitalizeCompartments | pycytominer/pooled/process.py:108-112 | a list is title-cased name by name; any other value raises NameError for the undefined variable in the elif |
| Pooled.CapitalizeIdempotent | pycytominer/pooled/process.py:108-110 | capitalising title-cased compartments changes nothing |
| Pooled.Capitalized | pycytominer/pooled/process.py:108-112 | the object's state after capitalising: passes exactly for a list, and a failure leaves the state as it was |
| Pooled.Construct | pycytominer/pooled/process.py:27-103 | builds exactly when the compartments pass the check, are a list and include Cytoplasm once title-cased; stores them title-cased with compression gzip, float_format None and whiten_center True unless the keywords say otherwise; a valid string raises NameError, a list without Cytoplasm the Cytoplasm assertion |
| Pooled.ConstructedCompartments | pycytominer/pooled/process.py:96-103 | a built object holds a title-cased list that includes Cytoplasm, which capitalising again keeps |
| Pooled.WithCompartments | pycytominer/pooled/process.py:116-120 | a failed compartment check leaves the object unchanged and reports that failure |
| Pooled.SetSingleCompartmentStored | pycytominer/pooled/process.py:117-120 | a valid single name is stored as given before the capitalisation raises NameError |
| Pooled.ForcedOutputSites | pycytominer/pooled/process.py:231-235 | per-site output is switched on, with a warning exactly when it was off |
| Pooled.ForcedOutputSitesOnce | pycytominer/pooled/process.py:231-235 | a second call changes nothing and does not warn |
| Pooled.GetBarcodeCols | pycytominer/pooled/process.py:379-389 | exactly the columns whose name contains Barcode, in frame order |
| Pooled.Labelled | pycytominer/pooled/process.py:369-377 | a metadata column the frame lacks raises KeyError; otherwise the metadata columns in list order with the metadata prefix, then every other column in frame order with the feature prefix |
| Pooled.LabelledFrom | pycytominer/pooled/process.py:372-377 | every labelled name is a metadata column or another column under its prefix |
| Pooled.LabelledMetadata | pycytominer/pooled/process.py:372 | every metadata column appears under the metadata prefix |
| Pooled.LabelledFeature | pycytominer/pooled/process.py:373-375 | every other column appears under the feature prefix |
| Pooled.LabelFeaturesSpec | pycytominer/pooled/process.py:362-377 | a bad compartment fails, leaving the caller's list; otherwise the barcode columns are appended to the caller's list when mapped |
| Pooled.BarcodesLabelledAsMetadata | pycytominer/pooled/process.py:366-377 | with barcode mapping, a barcode column is labelled as metadata and never as a feature |
| Pooled.Lookup | pycytominer/pooled/process.py:285-299 | indexing a dictionary fails exactly for a missing key |
| Pooled.JoinOntoCytoplasm | pycytominer/pooled/process.py:287-303 | succeeds exactly when Cytoplasm and each included compartment have a frame; Cells is joined on the left of Cytoplasm, then Nuclei on the right; with neither, the Cytoplasm frame is returned |
| Pooled.MergeCompartmentsAsWritten | pycytominer/pooled/process.py:279-303 | as written, one frame with a list of compartments raises TypeError for the unhashable key; more frames are joined onto Cytoplasm |
| Pooled.Sole | pycytominer/pooled/process.py:284-285 | the frame of a one-frame dictionary |
| Pooled.MergeCompartments | pycytominer/pooled/process.py:279-303 | as intended, one frame is returned unchanged and more frames are joined onto Cytoplasm |
| Pooled.OneFrameUnhashable | pycytominer/pooled/process.py:284-285 | every built object holds a list, so as written it cannot merge one frame, where the intended merge returns it |
| Pooled.Iterated | pycytominer/pooled/process.py:332 | iterating the compartments visits the list, or the characters of a string |
| Pooled.CompartmentColumnsNext | pycytominer/pooled/process.py:332-335 | each turn of the loop appends the columns of one more compartment |
| Pooled.CompartmentColumnsMember | pycytominer/pooled/process.py:332-335 | a column is a compartment column exactly when it starts with a title-cased compartment and "_" |
| Pooled.SiteColumnOrderMembers | pycytominer/pooled/process.py:326-337 | the order starts with Metadata_Batch and Metadata_Site and keeps exactly the metadata columns and the compartment columns |
| Pooled.AppendCompartmentColumns | pycytominer/pooled/process.py:332-335 | the loop computes the compartment columns |
| Pooled.PooledCellPainting.Create | pycytominer/pooled/process.py:27-103 | an object holding exactly the fields the constructor computes, or the first exception it raises |
| Pooled.PooledCellPainting.CapitalizeCompartments | pycytominer/pooled/process.py:108-112 | the fields and the outcome are those of capitalising |
| Pooled.PooledCellPainting.SetDirectory | pycytominer/pooled/process.py:114-115 | only the directory changes |
| Pooled.PooledCellPainting.SetCompartments | pycytominer/pooled/process.py:116-120 | the fields and the outcome are those of the check, the assignment and the capitalisation |
| Pooled.PooledCellPainting.ForceOutputSites | pycytominer/pooled/process.py:231-235 | per-site output is switched on, warning when it was off |
| Pooled.PooledCellPainting.GetBarcodeColumns | pycytominer/pooled/process.py:379-389 | the barcode columns |
| Pooled.PooledCellPainting.LabelFeatures | pycytominer/pooled/process.py:350-377 | the caller's list and the labelled columns are as the labelling specification says |
| Pooled.PooledCellPainting.ConcatenateSitesColumns | pycytominer/pooled/process.py:319-338 | the column order of the concatenated frame for the stored compartments |
| AnnotateCustom.Constant | pycytominer/cyto_utils/annotate_custom.py:43-52 | a scalar assigned to a column fills every row |
| AnnotateCustom.Assign | pycytominer/cyto_utils/annotate_custom.py:36-52 | assign stores the column under its name; a new name goes last, an existing one keeps its place |
| AnnotateCustom.AssignValid | pycytominer/cyto_utils/annotate_custom.py:36-52 | assign keeps a well-formed frame well formed |
| AnnotateCustom.Masked | pycytominer/cyto_utils/annotate_custom.py:63-85 | a masked assignment writes the value in the masked rows and keeps the other cells |
| AnnotateCustom.SetWhere | pycytominer/cyto_utils/annotate_custom.py:63-85 | the .loc assignment changes only the named column, to its masked form, and keeps the frame well formed |
| AnnotateCustom.Equals | pycytominer/cyto_utils/annotate_custom.py:64-83 | the comparison mask holds exactly in the rows whose cell equals the value |
| AnnotateCustom.IdRun | pycytominer/cyto_utils/annotate_custom.py:38 | the leading run of capitals and digits, as long as possible |
| AnnotateCustom.MatchFrom | pycytominer/cyto_utils/annotate_custom.py:38 | a match is at least five characters long and is a slice of the string |
| AnnotateCustom.SearchFromFinds | pycytominer/cyto_utils/annotate_custom.py:37-39 | the search finds a match exactly when one starts at or after the position, and returns the first one |
| AnnotateCustom.ExtractBrd | pycytominer/cyto_utils/annotate_custom.py:37-39 | the extraction succeeds exactly when the pattern occurs, and gives the leftmost match, taken as long as possible |
| AnnotateCustom.ExtractBrdPrefix | pycytominer/cyto_utils/annotate_custom.py:37-39 | a broad sample such as BRD-K76022557-003-28-9 has perturbation id BRD-K76022557 |
| AnnotateCustom.IdRunPrefix | pycytominer/cyto_utils/annotate_custom.py:38 | a run not continued by the rest is matched whole |
| AnnotateCustom.PertIdOf | pycytominer/cyto_utils/annotate_custom.py:37-39 | the perturbation id is missing exactly when the sample is not a string or has no match, and is the match otherwise |
| AnnotateCustom.PertIds | pycytominer/cyto_utils/annotate_custom.py:37-39 | the id column holds each row's extracted id |
| AnnotateCustom.ChemicalTypes | pycytominer/cyto_utils/annotate_custom.py:55-60 | one chemical sample type per row |
| AnnotateCustom.ZeroControls | pycytominer/cyto_utils/annotate_custom.py:71-85 | a missing dose column is left alone; a present one is zeroed in the control rows only |
| AnnotateCustom.ChemicalSteps | pycytominer/cyto_utils/annotate_custom.py:54-85 | the chemical block keeps the row count and every column's length |
| AnnotateCustom.ChemicalRows | pycytominer/cyto_utils/annotate_custom.py:55-75 | a DMSO or missing sample is a control whose sample becomes DMSO and whose dose becomes 0; an empty sample has type empty; any other is a treatment |
| AnnotateCustom.ChemicalKeeps | pycytominer/cyto_utils/annotate_custom.py:54-85 | the chemical block keeps the columns it does not name |
| AnnotateCustom.GeneticSteps | pycytominer/cyto_utils/annotate_custom.py:87-94 | without a perturbation name nothing changes; with one, only the sample type is set, control exactly where the name is EMPTY and trt elsewhere |
| AnnotateCustom.WithPertType | pycytominer/cyto_utils/annotate_custom.py:96-103 | the perturbation type copies the sample type, or both become empty strings; no other column changes |
| AnnotateCustom.CmapColumns | pycytominer/cyto_utils/annotate_custom.py:36-43 | the id, the mfc id, the well from the join column and an empty vendor id are assigned |
| AnnotateCustom.Described | pycytominer/cyto_utils/annotate_custom.py:45-52 | the pert name and mfc description copy pert_iname when present; the cell id is added only when the frame has none; nothing else changes |
| AnnotateCustom.AnnotateCmap | pycytominer/cyto_utils/annotate_custom.py:6-105 | an unknown mode and a missing broad sample column raise their assertions; it succeeds exactly when the mode is known and the broad sample and join columns exist; the result keeps the row count and has the perturbation type equal to the sample type |
| AnnotateCustom.AnnotateCmapValid | pycytominer/cyto_utils/annotate_custom.py:6-105 | a well-formed frame is annotated into a well-formed frame |
| AnnotateCustom.DescribedValid | pycytominer/cyto_utils/annotate_custom.py:45-52 | describing keeps the frame well formed |
| AnnotateCustom.ChemicalValid | pycytominer/cyto_utils/annotate_custom.py:54-85 | the chemical block keeps the frame well formed |
| AnnotateCustom.WithPertTypeValid | pycytominer/cyto_utils/annotate_custom.py:96-103 | the type step keeps the frame well formed |
| AnnotateCustom.AnnotatedIds | pycytominer/cyto_utils/annotate_custom.py:36-52 | each row's perturbation id comes from its original broad sample, its well from the join column, and its cell id is the frame's own or the given one |
| AnnotateCustom.DescribedIds | pycytominer/cyto_utils/annotate_custom.py:36-52 | the same for the mode-independent steps |
| AnnotateCustom.AnnotatedChemical | pycytominer/cyto_utils/annotate_custom.py:54-103 | in chemical mode each row's sample type and perturbation type follow the chemical rule, and controls get sample DMSO |
| AnnotateCustom.Profiles.SetWhereInPlace | pycytominer/cyto_utils/annotate_custom.py:63-85 | the in-place cell loop computes exactly the masked assignment |
| AnnotateCustom.Profiles.Chemical | pycytominer/cyto_utils/annotate_custom.py:54-85 | the in-place chemical block computes exactly the chemical steps |
| AnnotateCustom.AnnotateCmapRun | pycytominer/cyto_utils/annotate_custom.py:6-105 | the function computes exactly the annotation specification |
| AnnotateCustom.CpClean | pycytominer/cyto_utils/annotate_custom.py:108-130 | each column name is cleaned on its own, so the names keep their number and order |
| AnnotateCustom.CpCleanIdempotent | pycytominer/cyto_utils/annotate_custom.py:122-128 | cleaning twice is cleaning once, and no cleaned name is Image_Metadata_Plate or Image_Metadata_Well |
| Paths.LastIndex | pycytominer/cyto_utils/compress.py:39 | the last position holding the character, or -1 when there is none |
| Paths.NameSuffix | pycytominer/cyto_utils/load.py:55 | a final component's suffix is empty or a dot followed by dot-free text that ends the name and is shorter than it |
| Paths.Suffix | pycytominer/cyto_utils/load.py:55 | a path's suffix is empty or a dot followed by text free of dots and slashes that ends the path |
| Paths.SuffixOfName | pycytominer/cyto_utils/load.py:55 | a name stem.ext with a non-empty stem has suffix .ext, with or without a directory in front |
| Paths.Splitext | pycytominer/cyto_utils/compress.py:39 | root and extension put back together give the path; the extension is empty or a dot followed by text free of dots and slashes |
| Paths.ExtensionNamed | pycytominer/cyto_utils/compress.py:39 | a non-empty extension means the final component is not made of dots alone |
| Paths.SplitextAppend | pycytominer/cyto_utils/compress.py:39-50 | appending .w to a named path makes .w its extension and the path its root |
| Load.IsParquetFile | pycytominer/cyto_utils/load.py:19-55 | a path that does not exist raises FileNotFoundError; true exactly for an existing path whose suffix lower-cased is .parquet; a value that is not a path is false |
| Load.ParquetExtension | pycytominer/cyto_utils/load.py:55 | stem.ext, with or without a directory, is taken for parquet exactly when ext lower-cased is parquet |
| Load.DotLower | pycytominer/cyto_utils/load.py:55 | lower-casing leaves the leading dot |
| Load.NoSuffixNotParquet | pycytominer/cyto_utils/load.py:55 | a final component without a dot is never taken for parquet |
| Load.LoadProfiles | pycytominer/cyto_utils/load.py:155-212 | a frame comes back as it is; a missing path raises FileNotFoundError; a path is read as parquet exactly when it exists and has the parquet suffix; an AnnData object is read in memory; a path is read as delimited text exactly when it is neither parquet nor an AnnData store |
| Load.FramePassesThrough | pycytominer/cyto_utils/load.py:178-179 | a frame argument comes back unchanged whatever the file system says |
| Load.MetadataName | pycytominer/cyto_utils/load.py:243-246 | the name starts with Metadata_: kept when it already does, prefixed otherwise |
| Load.MetadataNameIdempotent | pycytominer/cyto_utils/load.py:243-246 | prefixing twice is prefixing once |
| Load.MetadataNames | pycytominer/cyto_utils/load.py:243-246 | one name per column, each by the Metadata_ rule |
| Load.MetadataNamesPrefixed | pycytominer/cyto_utils/load.py:243-246 | every resulting name starts with Metadata_, and names that all had it are kept |
| Load.MetadataNamesIdempotent | pycytominer/cyto_utils/load.py:243-246 | renaming twice is renaming once |
| Load.LoadPlatemap | pycytominer/cyto_utils/load.py:215-247 | a path without a file raises FileNotFoundError naming it; otherwise the read or copied platemap keeps its values, and its columns follow the Metadata_ rule when asked |
| Load.LoadPlatemapTwice | pycytominer/cyto_utils/load.py:232-247 | loading a loaded platemap again changes nothing |
| Load.MetaNames | pycytominer/cyto_utils/load.py:289-291 | the npz metadata names follow the Metadata_ rule |
| Load.ModelEntry | pycytominer/cyto_utils/load.py:294 | the first metadata entry named Metadata_Model, and none exactly when no entry has that name |
| Load.FeaturePrefix | pycytominer/cyto_utils/load.py:286-299 | the first Metadata_Model value, or the fallback when there is no metadata or no such entry; an empty entry raises IndexError |
| Load.FeatureName | pycytominer/cyto_utils/load.py:302-305 | prefix_x unless x already starts with the prefix |
| Load.FeatureNameIdempotent | pycytominer/cyto_utils/load.py:302-305 | naming twice is naming once |
| Load.ColumnLabels | pycytominer/cyto_utils/load.py:280 | the array's columns are labelled 0 to width-1 |
| Load.FeatureNames | pycytominer/cyto_utils/load.py:302-305 | each array label after the feature name rule |
| Load.MetaColumnNames | pycytominer/cyto_utils/load.py:286-291 | the metadata names, none without stored metadata |
| Load.NpzFeatureColumns | pycytominer/cyto_utils/load.py:250-311 | no file gives no columns; without metadata the bare labels; otherwise the metadata columns followed by the prefixed feature names, failing exactly when the prefix lookup does |
| Load.NpzColumnsPrefixed | pycytominer/cyto_utils/load.py:289-309 | every metadata column starts with Metadata_ and every feature with the prefix |
| Load.PickLabels | pycytominer/cyto_utils/load.py:352 | selecting by label succeeds exactly for non-negative indices and picks them in order |
| Load.NpzLocations | pycytominer/cyto_utils/load.py:314-354 | no file gives an empty frame; an x index out of bounds raises the x IndexError, checked before y; otherwise the two picked columns are named Location_Center_X and Location_Center_Y |
| Load.DefaultLocations | pycytominer/cyto_utils/load.py:314-349 | the default indices 0 and 1 work exactly when the file has at least two location columns |
| Compress.OptionSuffix | pycytominer/cyto_utils/compress.py:25-31 | a suffix exactly for gzip, bz2, zip, xz and None; None's suffix is empty and the others are a dot and an extension |
| Compress.SuffixesKnown | pycytominer/cyto_utils/compress.py:25-41 | every suffix is one of the dictionary's values |
| Compress.Compress | pycytominer/cyto_utils/compress.py:10-58 | an unsupported method fails the assertion; a name with a known extension is kept and written with inference, warning exactly when the extension is not the method's; any other name gets the method's suffix |
| Compress.CompressAppends | pycytominer/cyto_utils/compress.py:39-50 | a name such as output.csv gets the method's suffix, with no warning |
| Compress.CompressKeepsCompressedName | pycytominer/cyto_utils/compress.py:39-48 | a name such as output.csv.gz keeps its name and is written by inference, warning when the method says otherwise |
| Compress.NoneKeepsName | pycytominer/cyto_utils/compress.py:30-50 | with no method the name is kept, None's suffix being empty |
| Compress.BareNameWarns | pycytominer/cyto_utils/compress.py:30-48 | a name without an extension counts as compressed and warns unless the method is None |
| Compress.CompressStable | pycytominer/cyto_utils/compress.py:39-50 | compressing again to the chosen name keeps it, infers the method and does not warn |
| Output.CheckCompressionMethod | pycytominer/cyto_utils/output.py:128-143 | passes exactly for gzip and None, else the assertion message naming the method |
| Output.SetCompressionMethod | pycytominer/cyto_utils/output.py:103-125 | None and a string become a one-key dictionary and a dictionary is kept; a dictionary without method raises KeyError; the result always holds a supported method |
| Output.SetCompressionMethodIdempotent | pycytominer/cyto_utils/output.py:118-125 | normalising normalised options gives them back |
| Output.ExtraKeysKept | pycytominer/cyto_utils/output.py:118-125 | a dictionary with a valid method keeps its other keys, such as mtime |
| Output.OutputFile | pycytominer/cyto_utils/output.py:12-100 | csv writes with the normalised options and fails exactly when they are invalid; parquet always writes with snappy; any other type writes nothing; the file name is always returned |
| Output.DefaultOptions | pycytominer/cyto_utils/output.py:18-92 | the default options go to the CSV writer unchanged |
| Output.OnlyCsvChecks | pycytominer/cyto_utils/output.py:82-98 | bad options fail a csv write and no other |
| Cli.CleanItems | pycytominer/cli.py:29 | no more items than given, each non-empty and already stripped |
| Cli.CleanItemsMember | pycytominer/cli.py:29 | a value is kept exactly when it is non-empty and some item strips to it |
| Cli.CleanItemsSound | pycytominer/cli.py:29 | every kept value is the stripped form of some given item |
| Cli.CleanItemsComplete | pycytominer/cli.py:29 | every item that does not strip to the empty string is kept in its stripped form |
| Cli.CleanItemsClean | pycytominer/cli.py:29 | clean items are kept as they are |
| Cli.SplitCsvArg | pycytominer/cli.py:18-29 | every item is non-empty and stripped; a sequence is cleaned as a list; a string is split on commas, so no item holds one |
| Cli.StripWithout | pycytominer/cli.py:29 | stripping adds no character |
| Cli.CleanWithout | pycytominer/cli.py:29 | cleaning adds no character to any item |
| Cli.SplitCsvArgIdempotent | pycytominer/cli.py:18-29 | splitting the returned list again gives it back |
| Cli.SplitJoined | pycytominer/cli.py:27-29 | clean comma-free items joined with commas split back to themselves |
| Cli.ParseListOrStr | pycytominer/cli.py:32-45 | None stays None, a comma-free string stays, and a string with a comma is split |
| Cli.ParseListOrStrStable | pycytominer/cli.py:43-45 | a string result holds no comma, so parsing it again keeps it |
| Cli.FeaturesArg | pycytominer/cli.py:86-89 | infer is passed on exactly for the string infer; any other value is split |
| Cli.InferListIsList | pycytominer/cli.py:86-89 | a list holding only infer is a feature list, not the infer mode |
| Cli.AggregateArgs | pycytominer/cli.py:85-89 | strata are split and features follow the infer rule |
| Cli.AnnotateJoinOn | pycytominer/cli.py:148-150 | the join keys pass exactly when they come to two, else the ValueError |
| Cli.TwoJoinKeys | pycytominer/cli.py:116-150 | two clean comma-free keys written a,b, such as the default, pass as that pair |
| Cli.JoinKeyCount | pycytominer/cli.py:148-150 | clean comma-free keys joined with commas pass exactly when there are two |
| Cli.NormalizeArgs | pycytominer/cli.py:212-219 | features and meta features both follow the infer rule |
| Cli.OperationArg | pycytominer/cli.py:295-300 | a string with a comma is split, any other string stays, and a sequence becomes a list as it is |
| Cli.FeatureSelectArgs | pycytominer/cli.py:290-302 | features follow the infer rule, the operation its own rule, and the noise groups the list-or-string rule |
| Cli.ConsensusArgs | pycytominer/cli.py:363-386 | replicate columns are split, features follow the infer rule, and the modz arguments exist exactly for the modz operation, holding method, weight and precision |
| Cli.CheckResult | pycytominer/cli.py:105-109 | a returned path is passed on; a frame raises the CLI error naming the command |
| Cli.Annotate | pycytominer/cli.py:148-172 | a wrong number of join keys raises before the library runs; otherwise the library's result is checked |
| AliasParam.UnusedAliasKeeps | pycytominer/utils/warnings.py:27-28 | an alias that is absent or falsy leaves the keywords as they are |
| AliasParam.GivenAliasMoves | pycytominer/utils/warnings.py:27-35 | a given alias moves its value to the parameter, replacing it, and disappears; no other keyword changes |
| AliasParam.AliasedIdempotent | pycytominer/utils/warnings.py:27-35 | rewriting twice is rewriting once |
| AliasParam.SelfAliasDrops | pycytominer/utils/warnings.py:34-35 | an alias equal to the parameter's name deletes the value |
| AliasParam.Kwargs.constructor | pycytominer/utils/warnings.py:26 | the dictionary holds the call's keywords |
| AliasParam.Kwargs.Rewrite | pycytominer/utils/warnings.py:27-35 | the keywords become their rewritten form; a warning is issued exactly when asked for and the alias is given, with the deprecation text |
| AliasParam.CallAliased | pycytominer/utils/warnings.py:24-37 | the wrapped function gets the positional arguments and the rewritten keywords, and its result is returned as it is |

## Left out

- `pycytominer/normalize.py`, `pycytominer/operations/transform.py`, `pycytominer/cyto_utils/transform.py`, `pycytominer/covariance.py` and `pycytominer/cyto_utils/modz.py`: numeric transforms over numpy, scipy and sklearn. Floating point is not modelled.
- `pycytominer/operations/noise_removal.py` and the outlier filter of `feature_select`: their exclusions are parameters. The model keeps only the argument check that `noise_removal` needs both of its settings.
- `pycytominer/operations/sparse_random_projection.py` and `pycytominer/audit.py`: numeric and randomised.
- Computing correlations: the correlation matrix of the chosen method (pearson, spearman or kendall) is an input of the correlation filters.
- `infer_cp_features`: its result is a parameter. The same holds for `get_default_compartments`, which is not part of this model; the default compartment list is a constant or parameter.
- pandas `query` on `samples`: a boolean row mask computed outside the model.
- `pycytominer/cyto_utils/sqlite/clean.py`, `pycytominer/cyto_utils/sqlite.py` and `pycytominer/cyto_utils/sqlite/meta.py`: database access. The conversion's SQL statements are modelled as text, and the rows a query would return are inputs.
- `SingleCells.load_image`, `count_cells`, `load_compartment`, `aggregate_compartment`, `aggregate_profiles`, `merge_single_cells` (the merge itself) and the normalisation step: they query SQLite or call the numeric normaliser. The settings, the merge plan and the renaming they use are modelled.
- `SingleCells.subsample_profiles`: random sampling.
- `pycytominer/cyto_utils/cell_locations.py` and the command scripts `cell_locations_cmd.py` and `collate_cmd.py`: S3, SQLite and file I/O.
- The Prefect flow of `pycytominer/cyto_utils/sqlite/convert.py` (`flow_convert_sqlite_to_parquet`) and `multi_to_single_parquet`: orchestration and parquet writes. The database's answers, `promote` and the generated identifiers are parameters.
- joblib `Parallel` in `pycytominer/pooled/process.py`: concurrency. Sites are processed one after another.
- `pycytominer/upload.py`, `pycytominer/cyto_utils/upload_utils.py` and `pycytominer/cyto_utils/collate.py`: network access and subprocesses.
- The readers in `pycytominer/cyto_utils/load.py` (`infer_delim`, `read_csv`, parquet, AnnData, `is_anndata`): file reads. Whether a file exists, its contents and its store kind are parameters.
- `pycytominer/cyto_utils/anndata_utils.py`, `pycytominer/utils/output.py` and `pycytominer/cyto_utils/write_parquet.py`: format adapters over file I/O.
- `build_file_list`, `process_site` and `get_compartment_dictionary` in `pycytominer/pooled/process.py`: directory listings and file reads. Pooled frames are modelled by their column names only; `astype` and the join are parameters.
- `AggregateDeepProfiler.aggregate_deep`, `annotate_deep` and the `.npz` reads: file reads. An `.npz` feature array is modelled by its width only.
- `pycytominer/annotate.py` and `pycytominer/consensus.py`: thin wrappers over pandas merges, modz and aggregation.
- `pycytominer/replicate_correlation.py`: unfinished in the source. It refers to an undefined name and returns nothing.
- The writes of `compress` and `output`: file I/O. The model produces the file name and the writer arguments.
- `fire` and the library calls behind the command line: their results are parameters of `Cli`.
- The function that `alias_param` wraps: a parameter of `AliasParam.CallAliased`.
- `pycytominer/core/profiles.py`, `pycytominer/core/operation.py`, `pycytominer/models/`, `pycytominer/feature_importance/`, `__config__.py` and the `__init__.py` files: declarations only.
- `aggregate_fields_count` in `pycytominer/cyto_utils/cp_aggregate.py`: identical to the one in `cp_image_features.py`, so both are modelled by `ImageFeatures.FieldsCount`.
- Floating point: values are real numbers, with no rounding and no IEEE special values beyond a missing cell.
- Iteration order of Python sets: `list(set(...))` is modelled as duplicate-free and in feature order.
- LegacyVarianceThreshold.RowLabels: a frame carries the default `RangeIndex`, and `samples` labels are positions in it; a frame with another index is not modelled.
- CSV cell rendering (how pandas prints a value) is a parameter wherever frames become text.
- `SAMPLE_` column labels follow a default `RangeIndex`; a profile frame with another index is not modelled.
- Feature-metadata frames with duplicate row labels are not modelled.
- `pathlib.PurePath`: the suffix follows the Python 3.12 rule. The normalisation of repeated or trailing slashes is not modelled.
- Python `repr` quoting of strings inside error messages is modelled for plain strings only.
- `.npz` metadata: an integer label is written in its string form, and a duplicated `Metadata_Model` keeps the first value.
- The platemap copy in `annotate_cmap`: in a value model a copy is the value itself, so aliasing is not captured.
- `annotate_cmap` is modelled with a single join column. Membership tests against `["DMSO", np.nan]` and `str.extract` on values that are not strings are modelled for strings and missing cells only.
- `np.bool` in `get_pairwise_correlation` is no longer available in numpy 1.24 and later. The model assumes a numpy version that still has it.
- ParseCpFeatures.ChannelSurvives: stated only for channel names without the letters 'X' and 'O'. Those letters interact with the `XUNIQUEX` placeholder and the `Orig` removal.
- DeepProfiler.ExtractBuilt: stated only for wells and sites without '_'. With an underscore, the name cannot be split back unambiguously.
- DeepProfiler.SiteKeysDistinct: stated only for wells and sites without '_', for the same reason.
- Pooled.MergeCompartments: requires the compartments to be a string or a list. A built object always holds a list.
- Pooled.PooledCellPainting.ConcatenateSitesColumns: requires the compartments to be a string or a list, as above.
- AnnotateCustom.AnnotateCmap: requires frames whose stored columns all have the frame's row count. That validity is kept, as proved by `AnnotateCustom.AnnotateCmapValid`.
- SqliteConvert.NanDataFill: its table invariant leaves out distinct column names. Distinctness is proved separately in `SqliteConvert.NanDataFillDistinct`.
- SqliteConvert.NanDataFill: gives an added column the intended float64 dtype. Only uint64 makes the source raise, which `SqliteConvert.NanDataFillAsWritten` models. As written, int32 keeps its name, and pandas builds the column as float64 when there are rows.
- SqliteConvert.AppendNullColumns: the intended dtype as for NanDataFill. An empty frame, which keeps an integer dtype in pandas, and bool or datetime fills are not modelled.
- SqliteConvert.AppendNullColumnsCells: the intended dtype, as for AppendNullColumns.
- SqliteConvert.NanDataFillCells: the intended dtype, as for AppendNullColumns.
- SqliteConvert.TableConcatToParquet: every fill uses the intended dtype, so a uint64 column is not reported as the TypeError the source raises.
- Aggregate.ParseFloat: reads optionally signed decimal text with ASCII white space around it. Exponents, "inf" and "nan" text, underscores and non-ASCII white space are not read, so such text raises ValueError in the model.
- Aggregate.CastCell: the text it accepts is that of ParseFloat.
- Aggregate.GroupPopulation: when a column is missing and another feature cannot be cast, the model reports the KeyError. The source raises whichever error its column select reaches first.
- Aggregate.Values: skips text cells. Every aggregate caller casts its features first, so no text remains there.
- ImageFeatures.Sums: skips text cells. pandas' groupby sum would concatenate text or raise TypeError; image count columns are numeric.
- ImageFeatures.SumCell: skips text cells, as for Sums.
- LegacyImageAggregate.Aggregates: skips text cells. `LegacyImageAggregate.GroupedOthers` raises the TypeError of pandas' mean and median before a text column reaches it.
- Merge.LeftMerge: the MergeError pandas raises when a suffixed name collides with an existing column is not modelled.
- CorrelationThreshold.Loser: equal absolute sums are broken by column index. numpy's default sort is not stable, so the source's order for ties is unspecified.
- Grouping.CellLess: orders numbers before text. pandas' `sort_values` raises TypeError on a stratum column that mixes numbers and text, and that error is not modelled.
- Grouping.SortKeys: orders keys by CellLess, as above.
- Cells.PyInt: reads ASCII digits and ASCII white space only. Underscore separators such as "1_000" and Unicode digits are not read.
- Strings.ParseInt: the text int() accepts, as for Cells.PyInt.
- Strings.Lower: ASCII letters only; other characters are kept.
- Strings.Title: ASCII letters only.
- Strings.Strip: ASCII white space only.
- ParseCpFeatures.ChannelFeatureParsed: stated only for channel names without the letters 'X' and 'O', for the same reason as ChannelSurvives.
- ParseCpFeatures.StandardizeNoPieces: stated only for channel names without '_' and without the letter 'O'.
- ParseCpFeatures.OrigDropped: stated only when the rest of the name holds no '_', 'O' or 'X'.
- DeepProfiler.WellKeysDistinct: stated only for wells without '_', for the reason given at ExtractBuilt.
- LinkingCols.SetRepr: shows the elements in the order given. Python shows a set in hash order.

## Findings

| source | as written | input that shows it | evidently intended | confidence | as-written member | corrected member |
|---|---|---|---|---|---|---|
| pycytominer/variance_threshold.py:37-42 | with `features="infer"` the inferred list is computed, but the frame is not narrowed to it, so every column, `Metadata_` ones included, is checked | a profile frame with a constant, non-missing `Metadata_Plate` column | only the inferred feature columns are checked, so no metadata column is excluded | not executed | LegacyVarianceThreshold.InferExcludesMetadata | LegacyVarianceThreshold.IntendedSkipsMetadata |
| pycytominer/correlation_threshold.py:43-50 | with `features="infer"` the frame is not narrowed to the inferred features, so metadata columns enter the correlation matrix | a `Metadata_` column whose correlation with another column exceeds the threshold, and which loses that pair's ranking | only the inferred feature columns are correlated, so no metadata column is excluded | not executed | LegacyCorrelationThreshold.InferExcludesMetadata | LegacyCorrelationThreshold.IntendedSkipsMetadata |
| pycytominer/cyto_utils/cp_image_features.py:124-128 | `count_prefix` is not passed to `aggregate_image_count_features`, so the count columns are always chosen by the default `Count` prefix | `count_prefix="Cnt"` with an image column `Metadata_Cnt_Cells` | the columns with the requested prefix are summed onto the profiles | not executed | ImageFeatures.PrefixNotForwarded | ImageFeatures.ForwardedPrefixSums |
| pycytominer/write_gct.py:55 | `lstrip("Metadata_")` strips a character set rather than a prefix | column `Metadata_treatment` is written as `reatment` | the prefix alone is removed, giving `treatment` | not executed | LegacyWriteGct.StrippedLeadingT | LegacyWriteGct.PrefixRemovedAfterPrefix |
| pycytominer/cyto_utils/sqlite/convert.py:213 | the filled column's dtype is `str(dtype).replace("int64", "float64")` | a fill from a table with a `uint64` column: the dtype becomes `ufloat64`, which numpy does not know, so the fill raises TypeError | every integer dtype becomes `float64` | not executed | SqliteConvert.UnsignedFillFails | SqliteConvert.FillDtype |
| pycytominer/pooled/process.py:284-285 | with one frame, the frame is looked up under `self.compartments`, which is a list and so unhashable | `compartments=["Cytoplasm"]`, a dictionary holding one frame | the single frame is returned as it is | not executed | Pooled.OneFrameUnhashable | Pooled.MergeCompartments |
