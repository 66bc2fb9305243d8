/**
 * Missing-value feature filter (operations/get_na_columns.py): a feature is
 * excluded when the share of its missing cells exceeds `cutoff`.
 */
module NaColumns {
  import opened Seqs
  import opened Wrappers
  import opened Frames
  import VarianceThreshold

  /** `isna().sum() / num_rows > cutoff`; with no rows the share is `NaN` and nothing is flagged. */
  predicate TooManyMissing(cells: seq<Cell>, cutoff: real)
  {
    |cells| > 0 && (NullCount(cells) as real) / (|cells| as real) > cutoff
  }

  function GetNaColumns(f: Frame, features: FeatureArg, inferred: seq<string>, samples: Samples,
                        cutoff: real): (r: Result<seq<string>>)
    requires Valid(f) && SamplesFit(f, samples)
    ensures !(0.0 <= cutoff <= 1.0) ==> r == Raise(ValueError, "cutoff variable must be between (0 and 1)")
    ensures r.Ok? <==> 0.0 <= cutoff <= 1.0 && HasColumns(f, ResolveFeatures(features, inferred))
    ensures r.Err? && 0.0 <= cutoff <= 1.0 ==> r.error.kind == KeyError
    ensures r.Ok? ==> NoDup(r.value)
  {
    if !(0.0 <= cutoff <= 1.0) then Raise(ValueError, "cutoff variable must be between (0 and 1)")
    else
      var g := ApplySamples(f, samples);
      var names := ResolveFeatures(features, inferred);
      var check := CheckColumns(g, names);
      if check.Fail? then Err(check.error)
      else Ok(Dedup(Filter(names, (x: string) => x in g.data && TooManyMissing(g.data[x], cutoff))))
  }

  /** A feature is reported exactly when it is requested and too often missing in the selected rows. */
  lemma {:induction false} GetNaColumnsExcludes(f: Frame, features: FeatureArg, inferred: seq<string>,
                                                samples: Samples, cutoff: real, x: string)
    requires Valid(f) && SamplesFit(f, samples)
    requires GetNaColumns(f, features, inferred, samples, cutoff).Ok?
    ensures x in GetNaColumns(f, features, inferred, samples, cutoff).value <==>
      x in ResolveFeatures(features, inferred) && TooManyMissing(ApplySamples(f, samples).data[x], cutoff)
  {
    var g := ApplySamples(f, samples);
    var names := ResolveFeatures(features, inferred);
    DedupMember(Filter(names, (y: string) => y in g.data && TooManyMissing(g.data[y], cutoff)), x);
  }

  lemma ShareAtMostOne(cells: seq<Cell>)
    requires |cells| > 0
    ensures 0.0 <= (NullCount(cells) as real) / (|cells| as real) <= 1.0
  {
    VarianceThreshold.RatioBounds(NullCount(cells), |cells|);
  }

  /** `cutoff == 1` excludes nothing: a share never exceeds one. */
  lemma {:induction false} CutoffOneKeepsAll(cells: seq<Cell>)
    ensures !TooManyMissing(cells, 1.0)
  {
    if |cells| > 0 { ShareAtMostOne(cells); }
  }

  /** A column without missing cells is never excluded by a valid cutoff. */
  lemma CompleteColumnKept(cells: seq<Cell>, cutoff: real)
    requires 0.0 <= cutoff
    requires forall i :: 0 <= i < |cells| ==> cells[i] != Null
    ensures !TooManyMissing(cells, cutoff)
  {
  }

  /** A column that is entirely missing is excluded by every cutoff below one. */
  lemma {:induction false} EmptyColumnExcluded(cells: seq<Cell>, cutoff: real)
    requires |cells| > 0 && cutoff < 1.0
    requires forall i :: 0 <= i < |cells| ==> cells[i] == Null
    ensures TooManyMissing(cells, cutoff)
  {
    AllNullCount(cells);
    VarianceThreshold.RatioBounds(NullCount(cells), |cells|);
  }

  lemma {:induction false} AllNullCount(cells: seq<Cell>)
    requires forall i :: 0 <= i < |cells| ==> cells[i] == Null
    ensures NullCount(cells) == |cells|
  {
    if cells != [] { AllNullCount(cells[1..]); }
  }
}
