/**
 * The older missing-value filter (get_na_columns.py at the package root):
 * `"none"` selects every row or every column, and the cutoff is not checked.
 */
module LegacyNaColumns {
  import opened Seqs
  import opened Wrappers
  import opened Frames
  import opened NaColumns
  import opened LegacyVarianceThreshold

  /** `features`: `"none"` for every column, otherwise a list of names. */
  datatype LegacyFeatures = AllFeatures | Listed(names: seq<string>)

  function LegacyGetNaColumns(f: Frame, features: LegacyFeatures, samples: LegacySamples,
                              cutoff: real): (r: Result<seq<string>>)
    requires Valid(f)
    ensures r.Ok? ==> NoDup(r.value)
    ensures samples.NoSamples? ==> (r.Ok? <==> features.AllFeatures? || HasColumns(f, features.names))
  {
    var g :- SelectLegacy(f, samples);
    var names := if features.AllFeatures? then g.columns else features.names;
    var check := CheckColumns(g, names);
    if check.Fail? then Err(check.error)
    else Ok(Dedup(Filter(names, (x: string) => x in g.data && TooManyMissing(g.data[x], cutoff))))
  }

  /** A name is reported exactly when it is a selected column whose share of missing values, over the selected rows, exceeds the cutoff. */
  lemma {:induction false} LegacyGetNaColumnsExcludes(f: Frame, features: LegacyFeatures, samples: LegacySamples,
                                                      cutoff: real, x: string)
    requires Valid(f)
    requires LegacyGetNaColumns(f, features, samples, cutoff).Ok?
    ensures SelectLegacy(f, samples).Ok?
    ensures var g := SelectLegacy(f, samples).value;
      x in LegacyGetNaColumns(f, features, samples, cutoff).value <==>
      x in (if features.AllFeatures? then f.columns else features.names) && TooManyMissing(g.data[x], cutoff)
  {
    var g := SelectLegacy(f, samples).value;
    var names := if features.AllFeatures? then g.columns else features.names;
    assert CheckColumns(g, names).Pass?;
    var kept := Filter(names, (y: string) => y in g.data && TooManyMissing(g.data[y], cutoff));
    assert LegacyGetNaColumns(f, features, samples, cutoff) == Ok(Dedup(kept));
    DedupMember(kept, x);
  }

  /** Without a range check a negative cutoff reports every column of a non-empty frame. */
  lemma {:induction false} NegativeCutoffFlagsAll(f: Frame, cutoff: real, x: string)
    requires Valid(f) && f.nrows > 0 && cutoff < 0.0 && x in f.data
    ensures LegacyGetNaColumns(f, AllFeatures, NoSamples, cutoff).Ok?
    ensures x in LegacyGetNaColumns(f, AllFeatures, NoSamples, cutoff).value
  {
    ShareAtMostOne(f.data[x]);
    LegacyGetNaColumnsExcludes(f, AllFeatures, NoSamples, cutoff, x);
  }
}
