/**
 * The legacy image-table helpers of `cp_aggregate`. The fields count and the
 * count step are those of `ImageFeatures`, with the count columns recognised
 * by the `Image_Count` prefix; the other features are grouped directly,
 * after the removed columns are dropped one at a time.
 */
module LegacyImageAggregate {
  import opened Seqs
  import opened Strings
  import opened Wrappers
  import opened Frames
  import opened Grouping
  import opened Aggregate
  import opened Merge
  import opened ImageFeatures
  import Util

  const LegacyCountPrefix: string := "Image_Count"

  /** Median exactly for "median"; any other operation, whatever its case, is a mean. */
  function GroupOperation(operation: string): (op: string)
    ensures op in Util.AggregateOperations
    ensures op == "median" <==> operation == "median"
  {
    if operation == "median" then "median" else "mean"
  }

  /** Every feature aggregated over the group of `key`. */
  function Aggregates(g: Frame, strata: seq<string>, features: seq<string>, op: string, key: seq<Cell>): (r: seq<Cell>)
    requires Valid(g) && HasColumns(g, strata) && HasColumns(g, features) && op in Util.AggregateOperations
    ensures |r| == |features|
    ensures forall j :: 0 <= j < |features| ==> r[j] == AggregateCells(op, Column(g, features[j], GroupRows(g, strata, key)))
  {
    seq(|features|, j requires 0 <= j < |features| => AggregateCells(op, Column(g, features[j], GroupRows(g, strata, key))))
  }

  /** The non-strata columns, in frame order. */
  function Others(g: Frame, strata: seq<string>): (r: seq<string>)
    requires Valid(g)
    ensures HasColumns(g, r) && forall c :: c in r <==> c in g.columns && c !in strata
  {
    var r := Filter(g.columns, NotIn(strata));
    assert forall j :: 0 <= j < |r| ==> r[j] in g.columns;
    r
  }

  /** A column holding text has pandas' object dtype, which grouped `mean` and `median` reject. */
  predicate HoldsText(cells: seq<Cell>)
  {
    exists i :: 0 <= i < |cells| && cells[i].Str?
  }

  /** No listed column holds text. */
  predicate TextFree(g: Frame, features: seq<string>)
  {
    forall j :: 0 <= j < |features| ==> features[j] in g.data && !HoldsText(g.data[features[j]])
  }

  /**
   * `groupby(strata, dropna=False)` followed by `median()` or `mean()` and
   * `reset_index()`: one row per key, missing keys included, in key order.
   * A missing stratum fails when grouping; a text column fails when it is
   * aggregated.
   */
  function GroupedOthers(g: Frame, strata: seq<string>, operation: string): (r: Result<Table>)
    requires Valid(g)
    ensures r.Ok? <==> HasColumns(g, strata) && TextFree(g, Others(g, strata))
    ensures !HasColumns(g, strata) ==> r.Err? && r.error.kind == KeyError
    ensures HasColumns(g, strata) && !TextFree(g, Others(g, strata)) ==> r.Err? && r.error.kind == TypeError
    ensures r.Ok? ==> r.value.columns == strata + Others(g, strata) && WellFormed(r.value)
    ensures r.Ok? ==> (|r.value.rows| == |GroupKeys(g, strata)|
      && forall k :: 0 <= k < |r.value.rows| ==>
        r.value.rows[k] == GroupKeys(g, strata)[k]
          + Aggregates(g, strata, Others(g, strata), GroupOperation(operation), GroupKeys(g, strata)[k]))
  {
    var check := CheckColumns(g, strata);
    if check.Fail? then Err(check.error)
    else
      var features := Others(g, strata);
      if !TextFree(g, features) then
        Raise(TypeError, "agg function failed [how->" + GroupOperation(operation) + ",dtype->object]")
      else
        var keys := GroupKeys(g, strata);
        var op := GroupOperation(operation);
        Ok(Table(strata + features, KeyedAggregates(g, strata, features, op, keys)))
  }

  /** One row per key: the key followed by the aggregate of every feature over its group. */
  function KeyedAggregates(g: Frame, strata: seq<string>, features: seq<string>, op: string,
                           keys: seq<seq<Cell>>): (r: seq<seq<Cell>>)
    requires Valid(g) && HasColumns(g, strata) && HasColumns(g, features) && op in Util.AggregateOperations
    requires forall t :: 0 <= t < |keys| ==> |keys[t]| == |strata|
    ensures |r| == |keys|
    ensures forall k :: 0 <= k < |r| ==> r[k] == keys[k] + Aggregates(g, strata, features, op, keys[k])
    ensures forall k :: 0 <= k < |r| ==> |r[k]| == |strata| + |features|
  {
    seq(|keys|, k requires 0 <= k < |keys| => keys[k] + Aggregates(g, strata, features, op, keys[k]))
  }

  /** The count step of the legacy copy, or the columns slated for removal. */
  function LegacyCountPhase(df: Table, image: Frame, categories: seq<string>, imageCols: seq<string>,
                            strata: seq<string>): (r: Result<(Table, seq<string>)>)
    requires Valid(image) && WellFormed(df)
    ensures r.Ok? ==> WellFormed(r.value.0)
    ensures "Count" !in categories ==> r == Ok((df, imageCols + CountFeatures(image.columns, LegacyCountPrefix)))
    ensures "Count" in categories ==> r == CountStep(df, image, imageCols, strata, LegacyCountPrefix)
  {
    if "Count" in categories then CountStep(df, image, imageCols, strata, LegacyCountPrefix)
    else Ok((df, imageCols + CountFeatures(image.columns, LegacyCountPrefix)))
  }

  /** The legacy `aggregate_image_features`, as a value. */
  function LegacyImageFeatures(df: Table, image: Frame, categories: seq<string>, imageCols: seq<string>,
                               strata: seq<string>, operation: string): (r: Result<Table>)
    requires Valid(image) && WellFormed(df)
    ensures r.Ok? ==> WellFormed(r.value) && |r.value.rows| >= |df.rows|
    ensures !OtherCategories(categories, "Count") ==>
      r == (match LegacyCountPhase(df, image, categories, imageCols, strata)
            case Ok(v) => Ok(v.0)
            case Err(e) => Err(e))
  {
    var phase :- LegacyCountPhase(df, image, categories, imageCols, strata);
    if !OtherCategories(categories, "Count") then Ok(phase.0)
    else
      var result :- GroupedOthers(DropIfPresent(image, phase.1), strata, operation);
      LeftMerge(phase.0, result, strata)
  }

  /** `if col in columns: drop([col])`. */
  method DropIfStillPresent(g: Frame, col: string) returns (h: Frame)
    requires Valid(g)
    ensures h == DropIfPresent(g, [col])
  {
    if col in g.columns {
      DropPresentColumn(g, col);
      var dropped := DropColumns(g, [col]);
      h := dropped.value;
    } else {
      DropAbsentColumn(g, col);
      h := g;
    }
  }

  /** `for col in remove_cols: if col in columns: drop([col])`. */
  method DropEach(image: Frame, remove: seq<string>) returns (g: Frame)
    requires Valid(image)
    ensures g == DropIfPresent(image, remove)
  {
    g := image;
    DropNothing(image);
    ghost var done: seq<string> := [];
    var i := 0;
    while i < |remove|
      invariant 0 <= i <= |remove| && done == remove[..i]
      invariant g == DropIfPresent(image, done)
    {
      DropIfPresentTwice(image, done, [remove[i]]);
      g := DropIfStillPresent(g, remove[i]);
      TakeNext(remove, i);
      done := done + [remove[i]];
      i := i + 1;
    }
    assert done == remove;
  }

  /**
   * The legacy `aggregate_image_features`: the removed columns are dropped
   * one at a time, each only when still present.
   */
  method LegacyAggregateImageFeatures(df: Table, image: Frame, categories: seq<string>, imageCols: seq<string>,
                                      strata: seq<string>, operation: string) returns (r: Result<Table>)
    requires Valid(image) && WellFormed(df)
    ensures r == LegacyImageFeatures(df, image, categories, imageCols, strata, operation)
  {
    var phase := LegacyCountPhase(df, image, categories, imageCols, strata);
    if phase.Err? {
      return Err(phase.error);
    }
    var counted, remove := phase.value.0, phase.value.1;
    if !OtherCategories(categories, "Count") {
      return Ok(counted);
    }
    var g := DropEach(image, remove);
    var result := GroupedOthers(g, strata, operation);
    if result.Err? {
      return Err(result.error);
    }
    r := LeftMerge(counted, result.value, strata);
  }

  /** Any operation other than exactly "median", "Median" included, aggregates by the mean. */
  lemma AnyOtherOperationIsMean(df: Table, image: Frame, categories: seq<string>, imageCols: seq<string>,
                                strata: seq<string>, operation: string)
    requires Valid(image) && WellFormed(df)
    requires operation != "median"
    ensures LegacyImageFeatures(df, image, categories, imageCols, strata, operation)
         == LegacyImageFeatures(df, image, categories, imageCols, strata, "mean")
  {
    var phase := LegacyCountPhase(df, image, categories, imageCols, strata);
    if phase.Ok? && OtherCategories(categories, "Count") {
      var grouped := GroupedOthers(DropIfPresent(image, phase.value.1), strata, operation);
      SameGroupOperation(DropIfPresent(image, phase.value.1), strata, operation, "mean");
      assert LegacyImageFeatures(df, image, categories, imageCols, strata, operation)
          == if grouped.Err? then Err(grouped.error) else LeftMerge(phase.value.0, grouped.value, strata);
    }
  }

  /** Two operation names that select the same pandas method give the same grouped table. */
  lemma SameGroupOperation(g: Frame, strata: seq<string>, a: string, b: string)
    requires Valid(g) && GroupOperation(a) == GroupOperation(b)
    ensures GroupedOthers(g, strata, a) == GroupedOthers(g, strata, b)
  {
  }

  /** When only counts are requested, the result is the count step with the `Image_Count` columns. */
  lemma LegacyOnlyCounts(df: Table, image: Frame, imageCols: seq<string>, strata: seq<string>, operation: string)
    requires Valid(image) && WellFormed(df)
    ensures var r := LegacyImageFeatures(df, image, ["Count"], imageCols, strata, operation);
      var step := CountStep(df, image, imageCols, strata, LegacyCountPrefix);
      (r.Ok? <==> step.Ok?) && (r.Ok? ==> r.value == step.value.0)
      && (r.Ok? && NewCounts(df, CountFeatures(image.columns, LegacyCountPrefix), strata) ==>
          forall c :: c in r.value.columns <==>
            c in df.columns || (c in image.columns && StartsWith(c, "Image_Count") && c !in strata))
  {
    OtherCategoriesExist(["Count"], "Count");
  }

  /** Without "Count" the `Image_Count` columns are only slated for removal, never merged. */
  lemma CountsRemovedWhenNotRequested(df: Table, image: Frame, categories: seq<string>, imageCols: seq<string>,
                                      strata: seq<string>)
    requires Valid(image) && WellFormed(df) && "Count" !in categories
    ensures var phase := LegacyCountPhase(df, image, categories, imageCols, strata);
      phase.Ok? && phase.value.0 == df
      && forall c :: c in image.columns && StartsWith(c, "Image_Count") ==> c in phase.value.1
  {
  }
}
