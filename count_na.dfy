/** Missing-value counts per feature (count_na_features.py). */
module CountNa {
  import opened Wrappers
  import opened Frames
  import opened NaColumns

  /** One `num_na` row per requested feature, in the requested order. */
  function CountNaFeatures(f: Frame, features: seq<string>): (r: Result<seq<(string, nat)>>)
    requires Valid(f)
    ensures r.Ok? <==> HasColumns(f, features)
    ensures r.Err? ==> r.error.kind == KeyError
    ensures r.Ok? ==> |r.value| == |features|
    ensures r.Ok? ==> forall i :: 0 <= i < |features| ==>
      r.value[i].0 == features[i] && r.value[i].1 == NullCount(f.data[features[i]]) && r.value[i].1 <= f.nrows
  {
    var check := CheckColumns(f, features);
    if check.Fail? then Err(check.error)
    else Ok(seq(|features|, i requires 0 <= i < |features| => (features[i], NullCount(f.data[features[i]]))))
  }

  /** The missing-value filter agrees with the counts: it flags a feature iff `num_na / rows > cutoff`. */
  lemma CountsDecideFilter(f: Frame, features: seq<string>, cutoff: real, i: nat)
    requires Valid(f) && i < |features|
    requires CountNaFeatures(f, features).Ok?
    ensures TooManyMissing(f.data[features[i]], cutoff) <==>
      f.nrows > 0 && (CountNaFeatures(f, features).value[i].1 as real) / (f.nrows as real) > cutoff
  {
  }
}
