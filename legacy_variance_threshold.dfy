/**
 * The older near-zero-variance filter (variance_threshold.py at the package
 * root). It differs from the newer one in four ways: cutoffs are checked by
 * assertions, `samples` is a list of row labels, an all-missing column of a
 * frame with rows makes the frequency rule raise `IndexError`, and a frame
 * with rows but no checked column reports its row labels. With
 * `features="infer"` it builds the non-`Metadata_` feature list but then
 * tests every column.
 */
module LegacyVarianceThreshold {
  import opened Seqs
  import opened Strings
  import opened Wrappers
  import opened Frames
  import VT = VarianceThreshold

  /** `samples`: `"none"` for every row, otherwise row labels. */
  datatype LegacySamples = NoSamples | Labels(rows: seq<nat>)

  function SelectLegacy(f: Frame, samples: LegacySamples): (r: Result<Frame>)
    requires Valid(f)
    ensures r.Ok? ==> Valid(r.value) && r.value.columns == f.columns
  {
    match samples
    case NoSamples => Ok(f)
    case Labels(rows) => PickRows(f, rows)
  }

  predicate NotMetadata(x: string) { !StartsWith(x, "Metadata_") }

  /** The inferred features: every column that does not start with `Metadata_`. */
  function InferLegacy(columns: seq<string>): (r: seq<string>)
    ensures forall x :: x in r <==> x in columns && NotMetadata(x)
  {
    Filter(columns, NotMetadata)
  }

  /** The columns the two rules are applied to, as written. */
  function TestedAsWritten(g: Frame, features: FeatureArg): seq<string>
  {
    match features
    case Infer => g.columns
    case Names(names) => names
  }

  /** The columns the two rules are meant to be applied to. */
  function TestedIntended(g: Frame, features: FeatureArg): seq<string>
  {
    match features
    case Infer => InferLegacy(g.columns)
    case Names(names) => names
  }

  /**
   * What the older filter reports: feature names, and on a frame with rows
   * but no checked column, the row labels (see `Run`).
   */
  datatype Reported = Feature(name: string) | RowLabel(row: nat)

  /**
   * The row labels of the selected frame: the default range index, or the
   * requested labels in the order given.
   */
  function RowLabels(f: Frame, samples: LegacySamples): (r: seq<nat>)
    requires Valid(f)
    ensures SelectLegacy(f, samples).Ok? ==> |r| == SelectLegacy(f, samples).value.nrows
    ensures samples.NoSamples? ==> forall i :: 0 <= i < |r| ==> r[i] == i
  {
    match samples
    case NoSamples => seq(f.nrows, i requires 0 <= i < f.nrows => i)
    case Labels(rows) => rows
  }

  /**
   * The shared body behind both versions, given the row labels and the
   * columns to test. Whenever a frame has no rows or no columns, pandas'
   * `apply` takes its empty-result path: it calls the rule once on an empty
   * series, discards the `IndexError` that call raises, and returns a copy
   * of the frame. Masking that copy with its own `isna()` keeps its index,
   * so with rows but no checked column the frequency step reports every row
   * label; without rows it reports nothing, and every uniqueness ratio is
   * 0/0, which compares false. On a frame with rows, a checked column
   * without any value makes the frequency rule raise.
   */
  function Run(g: Frame, index: seq<nat>, tested: seq<string>, freqCut: real, uniqueCut: real): (r: Result<seq<Reported>>)
    requires Valid(g) && HasColumns(g, tested) && |index| == g.nrows
    ensures r.Err? <==> g.nrows > 0 && exists i :: 0 <= i < |tested| && VT.ValueCounts(g.data[tested[i]]) == []
    ensures r.Err? ==> r.error.kind == IndexError
    ensures g.nrows == 0 ==> r == Ok([])
    ensures tested == [] ==> r.Ok? && forall x :: x in r.value <==> x.RowLabel? && x.row in index
    ensures r.Ok? ==> NoDup(r.value)
  {
    if g.nrows == 0 then Ok([])
    else if tested == [] then
      assert forall x :: x in Dedup(Rows(index)) <==> x in Rows(index) by {
        forall x ensures x in Dedup(Rows(index)) <==> x in Rows(index) { DedupMember(Rows(index), x); }
      }
      Ok(Dedup(Rows(index)))
    else if exists i :: 0 <= i < |tested| && VT.ValueCounts(g.data[tested[i]]) == [] then
      Raise(IndexError, "single positional indexer is out-of-bounds")
    else
      var byFreq := VT.Flagged(g, tested, (c: seq<Cell>) => VT.LowFrequency(c, freqCut));
      var byUnique := VT.Flagged(g, tested, (c: seq<Cell>) => VT.LowUniqueness(c, uniqueCut));
      Ok(Dedup(Features(byFreq + byUnique)))
  }

  /** Row labels as reported entries. */
  function Rows(index: seq<nat>): (r: seq<Reported>)
    ensures forall x :: x in r <==> x.RowLabel? && x.row in index
  {
    if index == [] then [] else [RowLabel(index[0])] + Rows(index[1..])
  }

  /** Feature names as reported entries. */
  function Features(names: seq<string>): (r: seq<Reported>)
    ensures forall x :: x in r <==> x.Feature? && x.name in names
  {
    if names == [] then [] else [Feature(names[0])] + Features(names[1..])
  }

  function Validate(f: Frame, features: FeatureArg, samples: LegacySamples,
                    freqCut: real, uniqueCut: real): (r: Result<Frame>)
    requires Valid(f)
    ensures r.Ok? ==> Valid(r.value) && r.value.columns == f.columns && SelectLegacy(f, samples) == Ok(r.value)
    ensures r.Ok? ==> 0.0 <= freqCut <= 1.0 && 0.0 <= uniqueCut <= 1.0
    ensures r.Ok? && features.Names? ==> HasColumns(r.value, features.names)
    ensures !(0.0 <= freqCut <= 1.0) ==> r == Raise(AssertionError, "freq_cut variable must be between (0 and 1)")
    ensures 0.0 <= freqCut <= 1.0 && !(0.0 <= uniqueCut <= 1.0) ==>
      r == Raise(AssertionError, "unique_cut variable must be between (0 and 1)")
  {
    if !(0.0 <= freqCut <= 1.0) then Raise(AssertionError, "freq_cut variable must be between (0 and 1)")
    else if !(0.0 <= uniqueCut <= 1.0) then Raise(AssertionError, "unique_cut variable must be between (0 and 1)")
    else
      var g :- SelectLegacy(f, samples);
      if features.Names? then
        var check := CheckColumns(g, features.names);
        if check.Fail? then Err(check.error) else Ok(g)
      else Ok(g)
  }

  /** `variance_threshold` as written. */
  function LegacyVarianceThreshold(f: Frame, features: FeatureArg, samples: LegacySamples,
                                   freqCut: real, uniqueCut: real): (r: Result<seq<Reported>>)
    requires Valid(f)
    ensures !(0.0 <= freqCut <= 1.0) ==> r == Raise(AssertionError, "freq_cut variable must be between (0 and 1)")
    ensures 0.0 <= freqCut <= 1.0 && !(0.0 <= uniqueCut <= 1.0) ==>
      r == Raise(AssertionError, "unique_cut variable must be between (0 and 1)")
    ensures r.Ok? ==> NoDup(r.value) && 0.0 <= freqCut <= 1.0 && 0.0 <= uniqueCut <= 1.0
  {
    var g :- Validate(f, features, samples, freqCut, uniqueCut);
    Run(g, RowLabels(f, samples), TestedAsWritten(g, features), freqCut, uniqueCut)
  }

  /** `variance_threshold` with the inferred features actually used. */
  function LegacyVarianceThresholdIntended(f: Frame, features: FeatureArg, samples: LegacySamples,
                                           freqCut: real, uniqueCut: real): (r: Result<seq<Reported>>)
    requires Valid(f)
    ensures !(0.0 <= freqCut <= 1.0) ==> r == Raise(AssertionError, "freq_cut variable must be between (0 and 1)")
    ensures 0.0 <= freqCut <= 1.0 && !(0.0 <= uniqueCut <= 1.0) ==>
      r == Raise(AssertionError, "unique_cut variable must be between (0 and 1)")
    ensures r.Ok? ==> NoDup(r.value) && 0.0 <= freqCut <= 1.0 && 0.0 <= uniqueCut <= 1.0
  {
    var g :- Validate(f, features, samples, freqCut, uniqueCut);
    Run(g, RowLabels(f, samples), TestedIntended(g, features), freqCut, uniqueCut)
  }

  /**
   * A rule's verdict on a column, as `Run` reports it for a frame with rows;
   * with no checked column only row labels are reported.
   */
  lemma {:induction false} RunExcludes(g: Frame, index: seq<nat>, tested: seq<string>, freqCut: real, uniqueCut: real, x: string)
    requires Valid(g) && HasColumns(g, tested) && |index| == g.nrows && g.nrows > 0
    requires Run(g, index, tested, freqCut, uniqueCut).Ok?
    ensures Feature(x) in Run(g, index, tested, freqCut, uniqueCut).value <==>
      x in tested && VT.Excluded(g.data[x], freqCut, uniqueCut)
  {
    if tested != [] {
      var byFreq := VT.Flagged(g, tested, (c: seq<Cell>) => VT.LowFrequency(c, freqCut));
      var byUnique := VT.Flagged(g, tested, (c: seq<Cell>) => VT.LowUniqueness(c, uniqueCut));
      DedupMember(Features(byFreq + byUnique), Feature(x));
    }
  }

  /**
   * As written, an empty feature list on a frame with rows reports every
   * row label, each once, and nothing else.
   */
  lemma {:induction false} NoFeaturesReportRows(f: Frame, samples: LegacySamples, freqCut: real, uniqueCut: real)
    requires Valid(f) && 0.0 <= freqCut <= 1.0 && 0.0 <= uniqueCut <= 1.0
    requires SelectLegacy(f, samples).Ok?
    ensures var r := LegacyVarianceThreshold(f, Names([]), samples, freqCut, uniqueCut);
      r.Ok? && forall x :: x in r.value <==> x.RowLabel? && x.row in RowLabels(f, samples)
  {
    var g := SelectLegacy(f, samples).value;
    assert CheckColumns(g, []).Pass?;
    assert Validate(f, Names([]), samples, freqCut, uniqueCut) == Ok(g);
  }

  /**
   * As written, `"infer"` tests metadata too: on a frame with rows, a
   * constant, non-missing `Metadata_` column is reported for exclusion.
   */
  lemma {:induction false} InferExcludesMetadata(f: Frame, freqCut: real, uniqueCut: real, m: string, v: Cell)
    requires Valid(f) && f.nrows > 0 && m in f.data && StartsWith(m, "Metadata_")
    requires v != Null && forall i :: 0 <= i < |f.data[m]| ==> f.data[m][i] == v
    requires LegacyVarianceThreshold(f, Infer, NoSamples, freqCut, uniqueCut).Ok?
    ensures Feature(m) in LegacyVarianceThreshold(f, Infer, NoSamples, freqCut, uniqueCut).value
  {
    assert HasColumns(f, f.columns);
    RunExcludes(f, RowLabels(f, NoSamples), f.columns, freqCut, uniqueCut, m);
    VT.ConstantColumnExcluded(f.data[m], v, freqCut);
  }

  /** With the inferred features used, no `Metadata_` column is ever reported. */
  lemma {:induction false} IntendedSkipsMetadata(f: Frame, samples: LegacySamples, freqCut: real, uniqueCut: real, m: string)
    requires Valid(f) && StartsWith(m, "Metadata_")
    requires LegacyVarianceThresholdIntended(f, Infer, samples, freqCut, uniqueCut).Ok?
    ensures Feature(m) !in LegacyVarianceThresholdIntended(f, Infer, samples, freqCut, uniqueCut).value
  {
    var g := Validate(f, Infer, samples, freqCut, uniqueCut).value;
    var tested := InferLegacy(g.columns);
    assert HasColumns(g, tested);
    if g.nrows > 0 {
      RunExcludes(g, RowLabels(f, samples), tested, freqCut, uniqueCut, m);
    }
  }
}
