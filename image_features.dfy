/**
 * The image-table helpers of `cp_image_features`: the number of fields of
 * view per group, the per-group sums of the count columns, and the
 * aggregation of the other image features, each left-merged onto the
 * profiles. The legacy copy in `cp_aggregate` reuses the shared pieces.
 */
module ImageFeatures {
  import opened Seqs
  import opened Strings
  import opened Wrappers
  import opened Frames
  import opened Grouping
  import opened Aggregate
  import opened Merge

  const SiteCount: string := "Metadata_Site_Count"

  /** Requiring a sorted, duplicate-free copy of some names is requiring the names. */
  lemma UniqueColumns(f: Frame, names: seq<string>)
    ensures HasColumns(f, Unique(names)) <==> HasColumns(f, names)
  {
    var u := Unique(names);
    assert forall c :: c in u <==> c in names;
    if HasColumns(f, u) {
      forall i | 0 <= i < |names| ensures names[i] in f.data {
        assert names[i] in u;
      }
    }
    if HasColumns(f, names) {
      forall i | 0 <= i < |u| ensures u[i] in f.data {
        assert u[i] in names;
      }
    }
  }

  // ---------------------------------------------------------------- fields of view

  function NullFree(): seq<Cell> -> bool
  {
    (k: seq<Cell>) => Null !in k
  }

  /** The number of non-missing field-of-view values in the group of `key`. */
  function Sites(image: Frame, strata: seq<string>, fov: string, key: seq<Cell>): (n: nat)
    requires Valid(image) && HasColumns(image, strata) && fov in image.data
    ensures n <= |GroupRows(image, strata, key)|
  {
    |NonNull(Column(image, fov, GroupRows(image, strata, key)))|
  }

  /**
   * `aggregate_fields_count`: one row per group whose key has no missing
   * value (the default `groupby` drops those), in key order, holding the key
   * and `Metadata_Site_Count`.
   */
  function FieldsCount(image: Frame, strata: seq<string>, fov: string): (r: Result<Table>)
    requires Valid(image)
    ensures r.Ok? <==> HasColumns(image, strata) && fov in image.data
    ensures r.Err? ==> r.error.kind == KeyError
    ensures r.Ok? ==> r.value.columns == strata + [SiteCount] && WellFormed(r.value)
  {
    var check := CheckColumns(image, Unique(strata + [fov]));
    UniqueColumns(image, strata + [fov]);
    assert HasColumns(image, strata + [fov]) <==> HasColumns(image, strata) && fov in image.data by {
      assert forall i :: 0 <= i < |strata| ==> (strata + [fov])[i] == strata[i];
      assert (strata + [fov])[|strata|] == fov;
    }
    if check.Fail? then Err(check.error)
    else
      var keys := Filter(GroupKeys(image, strata), NullFree());
      assert forall k :: 0 <= k < |keys| ==> keys[k] in GroupKeys(image, strata);
      Ok(Table(strata + [SiteCount],
               seq(|keys|, k requires 0 <= k < |keys| => keys[k] + [Num(Sites(image, strata, fov, keys[k]) as real)])))
  }

  /**
   * The rows of `FieldsCount` are the null-free group keys, in key order,
   * each with its number of non-missing fields of view.
   */
  lemma FieldsCountShape(image: Frame, strata: seq<string>, fov: string)
    requires Valid(image) && HasColumns(image, strata) && fov in image.data
    ensures var t := FieldsCount(image, strata, fov).value;
      var keys := Filter(GroupKeys(image, strata), NullFree());
      |t.rows| == |keys|
      && (forall k :: 0 <= k < |keys| ==> keys[k] in GroupKeys(image, strata))
      && forall k :: 0 <= k < |keys| ==>
        t.rows[k][..|strata|] == keys[k] && t.rows[k][|strata|] == Num(Sites(image, strata, fov, keys[k]) as real)
  {
    var t := FieldsCount(image, strata, fov).value;
    var keys := Filter(GroupKeys(image, strata), NullFree());
    assert forall k :: 0 <= k < |keys| ==> keys[k] in GroupKeys(image, strata);
    forall k | 0 <= k < |keys|
      ensures t.rows[k][..|strata|] == keys[k] && t.rows[k][|strata|] == Num(Sites(image, strata, fov, keys[k]) as real)
    {
      assert t.rows[k] == keys[k] + [Num(Sites(image, strata, fov, keys[k]) as real)];
    }
  }

  /** Every output row is the key of some image row, without a missing value, and its count. */
  lemma FieldsCountFromGroups(image: Frame, strata: seq<string>, fov: string)
    requires Valid(image) && HasColumns(image, strata) && fov in image.data
    ensures var t := FieldsCount(image, strata, fov).value;
      forall k :: 0 <= k < |t.rows| ==>
        var key := t.rows[k][..|strata|];
        Null !in key && (exists i :: 0 <= i < image.nrows && RowKey(image, strata, i) == key)
        && t.rows[k][|strata|] == Num(Sites(image, strata, fov, key) as real)
  {
    FieldsCountShape(image, strata, fov);
    var keys := Filter(GroupKeys(image, strata), NullFree());
    assert forall k :: 0 <= k < |keys| ==> NullFree()(keys[k]);
  }

  /** Every image row whose key has no missing value has its group in the output. */
  lemma FieldsCountCovers(image: Frame, strata: seq<string>, fov: string, i: nat) returns (k: nat)
    requires Valid(image) && HasColumns(image, strata) && fov in image.data
    requires i < image.nrows && Null !in RowKey(image, strata, i)
    ensures var t := FieldsCount(image, strata, fov).value;
      k < |t.rows| && t.rows[k][..|strata|] == RowKey(image, strata, i)
  {
    FieldsCountShape(image, strata, fov);
    var all := GroupKeys(image, strata);
    var keys := Filter(all, NullFree());
    var key := RowKey(image, strata, i);
    assert key in all;
    FilterMember(all, NullFree(), key);
    k :| k < |keys| && keys[k] == key;
  }

  /** The output rows are in strictly ascending key order. */
  lemma FieldsCountSorted(image: Frame, strata: seq<string>, fov: string)
    requires Valid(image) && HasColumns(image, strata) && fov in image.data
    ensures var t := FieldsCount(image, strata, fov).value;
      forall k1, k2 :: 0 <= k1 < k2 < |t.rows| ==> KeyLess(t.rows[k1][..|strata|], t.rows[k2][..|strata|])
  {
    FieldsCountShape(image, strata, fov);
    var all := GroupKeys(image, strata);
    var keys := Filter(all, NullFree());
    FilterSubseq(all, NullFree());
    forall k1, k2 | 0 <= k1 < k2 < |keys| ensures KeyLess(keys[k1], keys[k2]) {
      SubseqKeysIncrease(keys, all, k1, k2);
    }
  }

  /** A subsequence of a sorted duplicate-free key list is strictly increasing. */
  lemma {:induction false} SubseqKeysIncrease(a: seq<seq<Cell>>, b: seq<seq<Cell>>, k1: nat, k2: nat)
    requires Subseq(a, b) && KeysSorted(b) && NoDup(b)
    requires k1 < k2 < |a|
    ensures KeyLess(a[k1], a[k2])
    decreases |b|
  {
    if a[0] == b[0] {
      if k1 == 0 {
        assert a[k2] in b[1..] by { SubseqMember(a[1..], b[1..], k2 - 1); }
        var j :| 0 <= j < |b[1..]| && b[1..][j] == a[k2];
        SortedDistinctKeysIncrease(b, 0, j + 1);
      } else {
        SubseqKeysIncrease(a[1..], b[1..], k1 - 1, k2 - 1);
      }
    } else {
      SubseqKeysIncrease(a, b[1..], k1, k2);
    }
  }

  lemma {:induction false} SubseqMember<T>(a: seq<T>, b: seq<T>, k: nat)
    requires Subseq(a, b) && k < |a|
    ensures a[k] in b
    decreases |b|
  {
    if a[0] == b[0] {
      if k > 0 {
        SubseqMember(a[1..], b[1..], k - 1);
      }
    } else {
      SubseqMember(a, b[1..], k);
    }
  }

  // ---------------------------------------------------------------- count features

  function HasPrefix(prefix: string): string -> bool
  {
    (c: string) => StartsWith(c, prefix)
  }

  /** The columns whose name starts with `prefix`, in column order. */
  function CountFeatures(columns: seq<string>, prefix: string): (r: seq<string>)
    ensures forall c :: c in r <==> c in columns && StartsWith(c, prefix)
    ensures Subseq(r, columns)
  {
    FilterSubseq(columns, HasPrefix(prefix));
    Filter(columns, HasPrefix(prefix))
  }

  /** `sum()` over one group: the total of the numeric values, zero when there are none. */
  function SumCell(cells: seq<Cell>): (r: Cell)
    ensures r.Num?
    ensures Values(cells) == [] ==> r == Num(0.0)
  {
    Num(SumReal(Values(cells)))
  }

  /** One more cell adds its number to the group sum; a missing cell adds nothing. */
  lemma SumCellAppend(cells: seq<Cell>, c: Cell)
    requires !c.Str?
    ensures SumCell(cells + [c]).r == SumCell(cells).r + (if c.Num? then c.r else 0.0)
  {
    ValuesConcat(cells, [c]);
    assert Values([c]) == (if c.Num? then [c.r] else []) by {
      assert [c][1..] == [];
    }
    SumRealConcat(Values(cells), Values([c]));
  }

  /** The summed columns after `groupby(strata).sum().reset_index()` on `union1d(strata, counts)`. */
  function SummedColumns(strata: seq<string>, counts: seq<string>): (r: seq<string>)
    ensures forall c :: c in r <==> c in counts && c !in strata
    ensures forall j :: 0 <= j < |r| ==> r[j] in counts
  {
    var u := Unique(strata + counts);
    forall c ensures c in Filter(u, NotIn(strata)) <==> c in counts && c !in strata {
      FilterMember(u, NotIn(strata), c);
    }
    Filter(u, NotIn(strata))
  }

  /** The sums of the given columns over the group of `key`. */
  function Sums(image: Frame, strata: seq<string>, cols: seq<string>, key: seq<Cell>): (r: seq<Cell>)
    requires Valid(image) && HasColumns(image, strata) && HasColumns(image, cols)
    ensures |r| == |cols|
    ensures forall j :: 0 <= j < |cols| ==> r[j] == SumCell(Column(image, cols[j], GroupRows(image, strata, key)))
  {
    seq(|cols|, j requires 0 <= j < |cols| => SumCell(Column(image, cols[j], GroupRows(image, strata, key))))
  }

  /** One row per group (missing key values kept), holding the key and the sums. */
  function CountSums(image: Frame, strata: seq<string>, counts: seq<string>): (t: Table)
    requires Valid(image) && HasColumns(image, strata) && HasColumns(image, counts)
    ensures t.columns == strata + SummedColumns(strata, counts) && WellFormed(t)
    ensures |t.rows| == |GroupKeys(image, strata)|
  {
    var keys := GroupKeys(image, strata);
    var cols := SummedColumns(strata, counts);
    assert HasColumns(image, cols);
    Table(strata + cols, seq(|keys|, k requires 0 <= k < |keys| => keys[k] + Sums(image, strata, cols, keys[k])))
  }

  /** The profiles left-merged with the per-group sums of `counts`. */
  function CountMerge(df: Table, image: Frame, strata: seq<string>, counts: seq<string>): (r: Result<Table>)
    requires Valid(image) && WellFormed(df) && HasColumns(image, strata) && HasColumns(image, counts)
    ensures r.Ok? <==> Keyed(df, strata)
    ensures r.Ok? ==> WellFormed(r.value) && |r.value.rows| >= |df.rows|
    ensures r.Ok? ==> r.value.columns == MergedColumns(df, CountSums(image, strata, counts), strata)
    ensures r.Ok? && NewCounts(df, counts, strata) ==>
      forall c :: c in r.value.columns <==> c in df.columns || (c in counts && c !in strata)
  {
    var sums := CountSums(image, strata, counts);
    assert Keyed(sums, strata) by {
      assert forall j :: 0 <= j < |strata| ==> sums.columns[j] == strata[j];
    }
    assert NewCounts(df, counts, strata) ==>
        MergedColumns(df, sums, strata) == df.columns + ExtraColumns(sums, strata) by {
      if NewCounts(df, counts, strata) {
        MergedColumnsPlain(df, sums, strata);
      }
    }
    LeftMerge(df, sums, strata)
  }

  /** No summed column is already a profile column, so the merge suffixes nothing. */
  predicate NewCounts(df: Table, counts: seq<string>, strata: seq<string>)
  {
    forall c :: c in counts && c !in strata ==> c !in df.columns
  }

  /**
   * `aggregate_image_count_features` with the count columns recognised by
   * `pattern`: the profiles left-merged with the per-group sums, and the
   * sorted, duplicate-free union of `imageCols` and the count columns.
   */
  function CountStep(df: Table, image: Frame, imageCols: seq<string>, strata: seq<string>,
                     pattern: string): (r: Result<(Table, seq<string>)>)
    requires Valid(image) && WellFormed(df)
    ensures r.Ok? <==> HasColumns(image, strata) && Keyed(df, strata)
    ensures r.Err? ==> r.error.kind == KeyError
    ensures r.Ok? ==> (Sorted(r.value.1) && NoDup(r.value.1)
      && forall c :: c in r.value.1 <==> c in imageCols || (c in image.columns && StartsWith(c, pattern)))
    ensures r.Ok? ==> r.value.0 == CountMerge(df, image, strata, CountFeatures(image.columns, pattern)).value
    ensures r.Ok? ==> WellFormed(r.value.0)
    ensures r.Ok? && NewCounts(df, CountFeatures(image.columns, pattern), strata) ==>
      forall c :: c in r.value.0.columns <==> c in df.columns || (c in image.columns && StartsWith(c, pattern) && c !in strata)
  {
    var counts := CountFeatures(image.columns, pattern);
    var remove := Unique(imageCols + counts);
    var keep := Unique(strata + counts);
    var check := CheckColumns(image, keep);
    UniqueColumns(image, strata + counts);
    assert HasColumns(image, counts) by {
      assert forall j :: 0 <= j < |counts| ==> counts[j] in image.columns;
    }
    assert HasColumns(image, strata + counts) <==> HasColumns(image, strata) by {
      assert forall i :: 0 <= i < |strata| ==> (strata + counts)[i] == strata[i];
      assert forall i :: 0 <= i < |counts| ==> (strata + counts)[|strata| + i] == counts[i];
    }
    if check.Fail? then Err(check.error)
    else
      var merged :- CountMerge(df, image, strata, counts);
      Ok((merged, remove))
  }

  /** The key columns of a table that starts with them are its first columns. */
  lemma KeyIsPrefix(t: Table, on: seq<string>, row: seq<Cell>)
    requires NoDup(on) && |on| <= |t.columns| && t.columns[..|on|] == on
    requires Keyed(t, on) && |row| == |t.columns|
    ensures KeyOf(t, on, row) == row[..|on|]
  {
    forall j | 0 <= j < |on| ensures IndexOf(t.columns, on[j]) == j {
      assert t.columns[j] == on[j];
    }
  }

  /** The kept positions of a table whose key columns come first are the ones after them. */
  lemma KeptAfterKeys(columns: seq<string>, on: seq<string>)
    requires |on| <= |columns| && columns[..|on|] == on
    requires forall j :: |on| <= j < |columns| ==> columns[j] !in on
    ensures KeptPositions(columns, on) == seq(|columns| - |on|, p requires 0 <= p < |columns| - |on| => |on| + p)
  {
    var n := |columns|;
    var all := Range(n);
    var p := KeptAt(columns, on);
    var front := Range(|on|);
    var back: seq<nat> := seq(n - |on|, q requires 0 <= q < n - |on| => |on| + q);
    assert all == front + back;
    FilterConcat(front, back, p);
    assert forall i :: 0 <= i < |front| ==> columns[front[i]] == on[i];
    FilterNone(front, p);
    FilterAll(back, p);
  }

  /** In a table whose key columns come first, a row's key and added cells are its two halves. */
  lemma PrefixKeyed(t: Table, on: seq<string>, row: seq<Cell>)
    requires NoDup(on) && |on| <= |t.columns| && t.columns[..|on|] == on
    requires forall j :: |on| <= j < |t.columns| ==> t.columns[j] !in on
    requires |row| == |t.columns|
    ensures Keyed(t, on) && KeyOf(t, on, row) == row[..|on|] && Extra(t, on, row) == row[|on|..]
  {
    assert Keyed(t, on) by {
      assert forall j :: 0 <= j < |on| ==> t.columns[j] == on[j];
    }
    KeyIsPrefix(t, on, row);
    KeptAfterKeys(t.columns, on);
  }

  /** The sums table is keyed by its first columns, one row per distinct key. */
  lemma CountSumsKeys(image: Frame, strata: seq<string>, counts: seq<string>)
    requires Valid(image) && HasColumns(image, strata) && HasColumns(image, counts) && NoDup(strata)
    ensures var sums := CountSums(image, strata, counts);
      var keys := GroupKeys(image, strata);
      var cols := SummedColumns(strata, counts);
      Keyed(sums, strata) && HasColumns(image, cols) && |ExtraColumns(sums, strata)| == |cols|
      && forall k :: 0 <= k < |keys| ==>
        KeyOf(sums, strata, sums.rows[k]) == keys[k]
        && Extra(sums, strata, sums.rows[k]) == Sums(image, strata, cols, keys[k])
  {
    var sums := CountSums(image, strata, counts);
    var keys := GroupKeys(image, strata);
    var cols := SummedColumns(strata, counts);
    assert HasColumns(image, cols);
    assert sums.columns[..|strata|] == strata;
    forall k | 0 <= k < |keys|
      ensures Keyed(sums, strata)
      ensures KeyOf(sums, strata, sums.rows[k]) == keys[k]
      ensures Extra(sums, strata, sums.rows[k]) == Sums(image, strata, cols, keys[k])
    {
      var row := keys[k] + Sums(image, strata, cols, keys[k]);
      assert sums.rows[k] == row;
      PrefixKeyed(sums, strata, row);
      assert row[..|strata|] == keys[k];
      assert row[|strata|..] == Sums(image, strata, cols, keys[k]);
    }
    assert Keyed(sums, strata) by {
      assert forall j :: 0 <= j < |strata| ==> sums.columns[j] == strata[j];
    }
    KeptAfterKeys(sums.columns, strata);
  }

  /**
   * With distinct strata, the count merge keeps exactly the profile rows, in
   * order, and appends to each the sums of the group with its key, or
   * missing values when no image row has that key.
   */
  lemma CountMergeRows(df: Table, image: Frame, strata: seq<string>, counts: seq<string>, i: nat)
    requires Valid(image) && WellFormed(df) && NoDup(strata)
    requires HasColumns(image, strata) && HasColumns(image, counts)
    requires CountMerge(df, image, strata, counts).Ok?
    requires i < |df.rows|
    ensures var out := CountMerge(df, image, strata, counts).value;
      var cols := SummedColumns(strata, counts);
      var key := KeyOf(df, strata, df.rows[i]);
      HasColumns(image, cols) && |out.rows| == |df.rows|
      && (key in GroupKeys(image, strata) ==> out.rows[i] == df.rows[i] + Sums(image, strata, cols, key))
      && (key !in GroupKeys(image, strata) ==> out.rows[i] == df.rows[i] + Nulls(|cols|))
  {
    var cols := SummedColumns(strata, counts);
    var sums := CountSums(image, strata, counts);
    var keys := GroupKeys(image, strata);
    CountSumsKeys(image, strata, counts);
    assert UniqueKeys(sums, strata);
    var key := KeyOf(df, strata, df.rows[i]);
    if key in keys {
      var k :| 0 <= k < |keys| && keys[k] == key;
      UniqueKeysMatched(df, sums, strata, i, k);
    } else {
      Unmatched(df, sums, strata, i);
    }
  }

  // ---------------------------------------------------------------- other features

  /** `np.setdiff1d(categories, [prefix])` is not empty. */
  predicate OtherCategories(categories: seq<string>, prefix: string)
  {
    Unique(Filter(categories, NotIn([prefix]))) != []
  }

  lemma OtherCategoriesExist(categories: seq<string>, prefix: string)
    ensures OtherCategories(categories, prefix) <==> exists c :: c in categories && c != prefix
  {
    var others := Filter(categories, NotIn([prefix]));
    if c :| c in categories && c != prefix {
      assert c in others;
      assert c in Unique(others);
    }
    if OtherCategories(categories, prefix) {
      var u := Unique(others);
      assert u[0] in others;
    }
  }

  /** The features aggregated: `np.setdiff1d` of the remaining columns and the strata. */
  function OtherFeatures(g: Frame, strata: seq<string>): (r: seq<string>)
    ensures Sorted(r) && NoDup(r)
    ensures forall c :: c in r <==> c in g.columns && c !in strata
  {
    Unique(Filter(g.columns, NotIn(strata)))
  }

  /** The count step, or the columns slated for removal when counts are not requested. */
  function CountPhase(df: Table, image: Frame, categories: seq<string>, imageCols: seq<string>,
                      strata: seq<string>, prefix: string, forwardPrefix: bool): (r: Result<(Table, seq<string>)>)
    requires Valid(image) && WellFormed(df)
    ensures r.Ok? ==> WellFormed(r.value.0)
    ensures prefix !in categories ==> r == Ok((df, imageCols + CountFeatures(image.columns, "Metadata_" + prefix)))
    ensures prefix in categories ==> r == CountStep(df, image, imageCols, strata, CountPattern(prefix, forwardPrefix))
  {
    if prefix in categories then CountStep(df, image, imageCols, strata, CountPattern(prefix, forwardPrefix))
    else Ok((df, imageCols + CountFeatures(image.columns, "Metadata_" + prefix)))
  }

  /**
   * The count columns the count step recognises. The source calls the count
   * step without passing `count_prefix`, so it always looks for
   * `Metadata_Count`; `forwardPrefix` selects the evidently intended pattern.
   */
  function CountPattern(prefix: string, forwardPrefix: bool): string
  {
    if forwardPrefix then "Metadata_" + prefix else "Metadata_Count"
  }

  /**
   * The aggregation of the other image features: the image table without the
   * removed columns (absent ones are skipped) is aggregated by `aggregate`
   * over every remaining non-strata column, and merged onto the profiles.
   */
  function OtherStep(counted: Table, image: Frame, remove: seq<string>, strata: seq<string>,
                     operation: string): (r: Result<Table>)
    requires Valid(image) && WellFormed(counted)
    ensures r.Ok? ==> WellFormed(r.value) && |r.value.rows| >= |counted.rows|
    ensures r.Ok? ==> |r.value.columns| >= |counted.columns|
  {
    var g := DropIfPresent(image, remove);
    var result :- AggregateProfiles(g, StrataList(strata), FeatureList(OtherFeatures(g, strata)), [],
                                    operation, false, "Metadata_ObjectNumber", None);
    LeftMerge(counted, result, strata)
  }

  /** `aggregate_image_features`. */
  function AggregateImageFeatures(df: Table, image: Frame, categories: seq<string>, imageCols: seq<string>,
                                  strata: seq<string>, operation: string, prefix: string,
                                  forwardPrefix: bool): (r: Result<Table>)
    requires Valid(image) && WellFormed(df)
    ensures r.Ok? ==> CountPhase(df, image, categories, imageCols, strata, prefix, forwardPrefix).Ok?
    ensures r.Ok? ==> WellFormed(r.value) && |r.value.rows| >= |df.rows|
    ensures !OtherCategories(categories, prefix) ==>
      r == (match CountPhase(df, image, categories, imageCols, strata, prefix, forwardPrefix)
            case Ok(v) => Ok(v.0)
            case Err(e) => Err(e))
  {
    var phase :- CountPhase(df, image, categories, imageCols, strata, prefix, forwardPrefix);
    if !OtherCategories(categories, prefix) then Ok(phase.0)
    else OtherStep(phase.0, image, phase.1, strata, operation)
  }

  /** When nothing besides counts is requested, the result is the count step's merge. */
  lemma OnlyCounts(df: Table, image: Frame, imageCols: seq<string>, strata: seq<string>,
                   operation: string, prefix: string, forwardPrefix: bool)
    requires Valid(image) && WellFormed(df)
    ensures var r := AggregateImageFeatures(df, image, [prefix], imageCols, strata, operation, prefix, forwardPrefix);
      var step := CountStep(df, image, imageCols, strata, CountPattern(prefix, forwardPrefix));
      (r.Ok? <==> step.Ok?) && (r.Ok? ==> r.value == step.value.0)
  {
    OtherCategoriesExist([prefix], prefix);
  }

  /** With no category requested, the profiles come back unchanged. */
  lemma NothingRequested(df: Table, image: Frame, imageCols: seq<string>, strata: seq<string>,
                         operation: string, prefix: string, forwardPrefix: bool)
    requires Valid(image) && WellFormed(df)
    ensures AggregateImageFeatures(df, image, [], imageCols, strata, operation, prefix, forwardPrefix) == Ok(df)
  {
    OtherCategoriesExist([], prefix);
  }

  /**
   * Other features, when requested, are aggregated by `aggregate` over the
   * image table without the removed columns, using every remaining
   * non-strata column in sorted order, and merged onto the counted profiles.
   */
  lemma OtherFeaturesAggregated(df: Table, image: Frame, categories: seq<string>, imageCols: seq<string>,
                                strata: seq<string>, operation: string, prefix: string, forwardPrefix: bool)
    requires Valid(image) && WellFormed(df)
    requires CountPhase(df, image, categories, imageCols, strata, prefix, forwardPrefix).Ok?
    requires exists c :: c in categories && c != prefix
    ensures var phase := CountPhase(df, image, categories, imageCols, strata, prefix, forwardPrefix).value;
      var g := DropIfPresent(image, phase.1);
      var result := AggregateProfiles(g, StrataList(strata), FeatureList(OtherFeatures(g, strata)), [],
                                      operation, false, "Metadata_ObjectNumber", None);
      var r := AggregateImageFeatures(df, image, categories, imageCols, strata, operation, prefix, forwardPrefix);
      (result.Err? ==> r == Err(result.error))
      && (result.Ok? ==> r == LeftMerge(phase.0, result.value, strata))
      && (forall c :: c in OtherFeatures(g, strata) <==> c in image.columns && c !in phase.1 && c !in strata)
  {
    OtherCategoriesExist(categories, prefix);
  }

  /** The merge of the other features keeps every counted row at the start of some output row. */
  lemma OtherStepKeepsRow(counted: Table, image: Frame, remove: seq<string>, strata: seq<string>,
                          operation: string, a: nat) returns (j: nat)
    requires Valid(image) && WellFormed(counted)
    requires OtherStep(counted, image, remove, strata, operation).Ok?
    requires a < |counted.rows|
    ensures var out := OtherStep(counted, image, remove, strata, operation).value;
      j < |out.rows| && out.rows[j][..|counted.columns|] == counted.rows[a]
  {
    var g := DropIfPresent(image, remove);
    var result := AggregateProfiles(g, StrataList(strata), FeatureList(OtherFeatures(g, strata)), [],
                                    operation, false, "Metadata_ObjectNumber", None).value;
    j := EveryLeftRowKept(counted, result, strata, a);
  }

  lemma CountPhaseKeepsRow(df: Table, image: Frame, categories: seq<string>, imageCols: seq<string>,
                           strata: seq<string>, prefix: string, forwardPrefix: bool, i: nat) returns (a: nat)
    requires Valid(image) && WellFormed(df)
    requires CountPhase(df, image, categories, imageCols, strata, prefix, forwardPrefix).Ok?
    requires i < |df.rows|
    ensures var counted := CountPhase(df, image, categories, imageCols, strata, prefix, forwardPrefix).value.0;
      a < |counted.rows| && |counted.rows[a]| >= |df.columns| && counted.rows[a][..|df.columns|] == df.rows[i]
  {
    if prefix in categories {
      var pattern := CountPattern(prefix, forwardPrefix);
      var counts := CountFeatures(image.columns, pattern);
      assert HasColumns(image, counts) by {
        assert forall j :: 0 <= j < |counts| ==> counts[j] in image.columns;
      }
      var sums := CountSums(image, strata, counts);
      assert Keyed(sums, strata) by {
        assert forall j :: 0 <= j < |strata| ==> sums.columns[j] == strata[j];
      }
      a := EveryLeftRowKept(df, sums, strata, i);
    } else {
      a := i;
      assert df.rows[i][..|df.columns|] == df.rows[i];
    }
  }

  /** Neither left merge drops a profile row: each one starts some output row. */
  lemma EveryProfileRowKept(df: Table, image: Frame, categories: seq<string>, imageCols: seq<string>,
                            strata: seq<string>, operation: string, prefix: string, forwardPrefix: bool, i: nat)
      returns (j: nat)
    requires Valid(image) && WellFormed(df)
    requires AggregateImageFeatures(df, image, categories, imageCols, strata, operation, prefix, forwardPrefix).Ok?
    requires i < |df.rows|
    ensures var out := AggregateImageFeatures(df, image, categories, imageCols, strata, operation, prefix, forwardPrefix).value;
      j < |out.rows| && |out.rows[j]| >= |df.columns| && out.rows[j][..|df.columns|] == df.rows[i]
  {
    var phase := CountPhase(df, image, categories, imageCols, strata, prefix, forwardPrefix).value;
    var counted := phase.0;
    var a := CountPhaseKeepsRow(df, image, categories, imageCols, strata, prefix, forwardPrefix, i);
    if OtherCategories(categories, prefix) {
      var out := OtherStep(counted, image, phase.1, strata, operation).value;
      j := OtherStepKeepsRow(counted, image, phase.1, strata, operation, a);
      PrefixOfPrefix(out.rows[j], counted.rows[a], |counted.columns|, |df.columns|);
    } else {
      j := a;
    }
  }

  lemma PrefixOfPrefix(x: seq<Cell>, y: seq<Cell>, m: nat, n: nat)
    requires m <= |x| && x[..m] == y && n <= |y|
    ensures |x| >= n && x[..n] == y[..n]
  {
  }

  lemma CntPrefixes()
    ensures !StartsWith("Metadata_Cnt_Cells", "Metadata_Count")
    ensures StartsWith("Metadata_Cnt_Cells", "Metadata_" + "Cnt")
  {
    assert "Metadata_Cnt_Cells"[12] != "Metadata_Count"[12];
    assert "Metadata_Cnt_Cells"[..12] == "Metadata_" + "Cnt";
  }

  /**
   * The count prefix is not forwarded. With `count_prefix` "Cnt" and only
   * "Cnt" requested, a column `Metadata_Cnt_Cells` is never summed onto the
   * profiles as written, and is when the prefix is forwarded.
   */
  lemma PrefixNotForwarded(df: Table, image: Frame, imageCols: seq<string>, strata: seq<string>, operation: string)
    requires Valid(image) && WellFormed(df)
    requires HasColumns(image, strata) && Keyed(df, strata)
    requires "Metadata_Cnt_Cells" in image.columns && "Metadata_Cnt_Cells" !in strata && "Metadata_Cnt_Cells" !in df.columns
    ensures var asWritten := AggregateImageFeatures(df, image, ["Cnt"], imageCols, strata, operation, "Cnt", false);
      asWritten.Ok? && "Metadata_Cnt_Cells" !in asWritten.value.columns
    ensures var intended := AggregateImageFeatures(df, image, ["Cnt"], imageCols, strata, operation, "Cnt", true);
      intended.Ok? && "Metadata_Cnt_Cells" in intended.value.columns
  {
    var c := "Metadata_Cnt_Cells";
    CntPrefixes();
    OnlyCounts(df, image, imageCols, strata, operation, "Cnt", false);
    assert c[|c| - 1] == 's';
    CountStepLacks(df, image, imageCols, strata, "Metadata_Count", c);
    OnlyCounts(df, image, imageCols, strata, operation, "Cnt", true);
    CountStepHas(df, image, imageCols, strata, "Metadata_" + "Cnt", c);
  }

  /** A name that is no profile column and does not match the pattern is not added by the count step. */
  lemma CountStepLacks(df: Table, image: Frame, imageCols: seq<string>, strata: seq<string>, pattern: string, c: string)
    requires Valid(image) && WellFormed(df)
    requires CountStep(df, image, imageCols, strata, pattern).Ok?
    requires c !in df.columns && !StartsWith(c, pattern)
    requires c == [] || (c[|c| - 1] != 'x' && c[|c| - 1] != 'y')
    ensures c !in CountStep(df, image, imageCols, strata, pattern).value.0.columns
  {
    var counts := CountFeatures(image.columns, pattern);
    var sums := CountSums(image, strata, counts);
    assert c !in SummedColumns(strata, counts);
    assert !(c in sums.columns && c !in strata);
    AbsentFromMerge(df, sums, strata, c);
  }

  /** A matching image column that is no profile column and no stratum is added by the count step. */
  lemma CountStepHas(df: Table, image: Frame, imageCols: seq<string>, strata: seq<string>, pattern: string, c: string)
    requires Valid(image) && WellFormed(df)
    requires CountStep(df, image, imageCols, strata, pattern).Ok?
    requires c in image.columns && StartsWith(c, pattern) && c !in strata && c !in df.columns
    ensures c in CountStep(df, image, imageCols, strata, pattern).value.0.columns
  {
    var counts := CountFeatures(image.columns, pattern);
    assert c in counts;
    assert HasColumns(image, counts) by {
      assert forall j :: 0 <= j < |counts| ==> counts[j] in image.columns;
    }
    CountMergeHas(df, image, strata, counts, c);
  }

  /** A summed column that is no profile column and no stratum is added by the count merge. */
  lemma CountMergeHas(df: Table, image: Frame, strata: seq<string>, counts: seq<string>, c: string)
    requires Valid(image) && WellFormed(df) && HasColumns(image, strata) && HasColumns(image, counts)
    requires CountMerge(df, image, strata, counts).Ok?
    requires c in counts && c !in strata && c !in df.columns
    ensures c in CountMerge(df, image, strata, counts).value.columns
  {
    var sums := CountSums(image, strata, counts);
    assert c in SummedColumns(strata, counts);
    assert c in sums.columns;
    ExtraUnsharedPlain(df, sums, strata, c);
  }

  /** With the prefix forwarded, the requested prefix's columns are the ones summed. */
  lemma ForwardedPrefixSums(df: Table, image: Frame, imageCols: seq<string>, strata: seq<string>,
                            operation: string, prefix: string)
    requires Valid(image) && WellFormed(df)
    requires HasColumns(image, strata) && Keyed(df, strata)
    ensures AggregateImageFeatures(df, image, [prefix], imageCols, strata, operation, prefix, true).Ok?
    ensures var r := AggregateImageFeatures(df, image, [prefix], imageCols, strata, operation, prefix, true);
      NewCounts(df, CountFeatures(image.columns, "Metadata_" + prefix), strata) ==>
        forall c :: c in r.value.columns <==>
          c in df.columns || (c in image.columns && StartsWith(c, "Metadata_" + prefix) && c !in strata)
  {
    OnlyCounts(df, image, imageCols, strata, operation, prefix, true);
  }
}
