/**
 * The older correlation filter (correlation_threshold.py at the package
 * root). It zeroes the upper triangle and the diagonal of a copy of the
 * correlation matrix, stacks all n*n entries row by row and keeps those above
 * the threshold; the ranking uses the unmodified matrix.
 */
module LegacyCorrelationThreshold {
  import opened Seqs
  import opened Strings
  import opened Wrappers
  import opened Frames
  import opened Util
  import opened CorrelationThreshold
  import LVT = LegacyVarianceThreshold

  /** The entries of a two-dimensional array as a matrix value. */
  function ToMatrix(a: array2<real>): (m: Matrix)
    reads a
    ensures |m| == a.Length0
    ensures forall i :: 0 <= i < a.Length0 ==> |m[i]| == a.Length1
  {
    seq(a.Length0, i requires 0 <= i < a.Length0 reads a =>
      seq(a.Length1, j requires 0 <= j < a.Length1 reads a => a[i, j]))
  }

  /** `np.tril(m, k=-1)` on an `n` by `n` matrix: entries strictly below the diagonal are kept. */
  function Tril(m: Matrix, n: nat): (t: Matrix)
    ensures |t| == n
    ensures forall i, j :: 0 <= i < n && 0 <= j < n ==> At(t, i, j) == if j < i then At(m, i, j) else 0.0
  {
    seq(n, i requires 0 <= i < n => seq(n, j requires 0 <= j < n => if j < i then At(m, i, j) else 0.0))
  }

  /** `data_cor_zerotri_df.loc[:, :] = np.tril(data_cor_df, k=-1)`, done cell by cell on the copy. */
  method ZeroUpperTriangle(a: array2<real>)
    modifies a
    ensures forall i, j :: 0 <= i < a.Length0 && 0 <= j < a.Length1 ==>
      a[i, j] == if j < i then old(a[i, j]) else 0.0
    ensures a.Length0 == a.Length1 ==> ToMatrix(a) == Tril(old(ToMatrix(a)), a.Length0)
  {
    var i := 0;
    while i < a.Length0
      invariant 0 <= i <= a.Length0
      invariant forall r, c :: 0 <= r < a.Length0 && 0 <= c < a.Length1 ==>
        a[r, c] == if r < i && c >= r then 0.0 else old(a[r, c])
    {
      var j := 0;
      while j < a.Length1
        invariant 0 <= j <= a.Length1
        invariant forall r, c :: 0 <= r < a.Length0 && 0 <= c < a.Length1 ==>
          a[r, c] == if (r < i && c >= r) || (r == i && c < j && c >= r) then 0.0 else old(a[r, c])
      {
        if j >= i {
          a[i, j] := 0.0;
        }
        j := j + 1;
      }
      i := i + 1;
    }
    if a.Length0 == a.Length1 {
      var n := a.Length0;
      var before := old(ToMatrix(a));
      var t := Tril(before, n);
      var m := ToMatrix(a);
      forall i | 0 <= i < n ensures m[i] == t[i] {
        forall j | 0 <= j < n ensures m[i][j] == t[i][j] {
          assert At(t, i, j) == t[i][j];
          assert At(before, i, j) == before[i][j];
        }
      }
    }
  }

  /** Row `a` of the full stack: `(a, 0), …, (a, n - 1)`. */
  function FullRow(a: nat, n: nat): (r: seq<(nat, nat)>)
    ensures |r| == n && forall j :: 0 <= j < n ==> r[j] == (a, j)
  {
    seq(n, j requires 0 <= j < n => (a, j))
  }

  /** The first `k` rows of `stack()` over an `n`-column matrix, row by row. */
  function StackRows(k: nat, n: nat): (r: seq<(nat, nat)>)
    ensures forall i :: 0 <= i < |r| ==> r[i].0 < k && r[i].1 < n
  {
    if k == 0 then [] else StackRows(k - 1, n) + FullRow(k - 1, n)
  }

  /** Every stacked entry of the zeroed matrix that is above the threshold. */
  function LegacyPassing(cor: Matrix, n: nat, threshold: real): (r: seq<(nat, nat)>)
    ensures forall i :: 0 <= i < |r| ==> r[i].0 < n && r[i].1 < n && At(Tril(cor, n), r[i].0, r[i].1) > threshold
  {
    var all := StackRows(n, n);
    var r := Filter(all, AboveAt(Tril(cor, n), threshold));
    assert forall i :: 0 <= i < |r| ==> r[i] in all;
    r
  }

  /** With a non-negative threshold no zeroed entry passes, so row `a` yields its lower part only. */
  lemma RowMatches(cor: Matrix, n: nat, threshold: real, a: nat)
    requires 0.0 <= threshold && a < n
    ensures Filter(FullRow(a, n), AboveAt(Tril(cor, n), threshold)) == Filter(LowerRow(a), AboveAt(cor, threshold))
  {
    var t := Tril(cor, n);
    var row := FullRow(a, n);
    var lower := LowerRow(a);
    var rest := row[a..];
    assert row == lower + rest;
    FilterConcat(lower, rest, AboveAt(t, threshold));
    FilterCongruent(lower, AboveAt(t, threshold), AboveAt(cor, threshold));
    assert forall i :: 0 <= i < |rest| ==> rest[i] == (a, a + i);
    FilterNone(rest, AboveAt(t, threshold));
  }

  lemma {:induction false} RowsMatch(cor: Matrix, n: nat, threshold: real, k: nat)
    requires 0.0 <= threshold && k <= n
    ensures Filter(StackRows(k, n), AboveAt(Tril(cor, n), threshold)) == Filter(LowerPairs(k), AboveAt(cor, threshold))
  {
    if k > 0 {
      RowsMatch(cor, n, threshold, k - 1);
      RowMatches(cor, n, threshold, k - 1);
      FilterConcat(StackRows(k - 1, n), FullRow(k - 1, n), AboveAt(Tril(cor, n), threshold));
      FilterConcat(LowerPairs(k - 1), LowerRow(k - 1), AboveAt(cor, threshold));
    }
  }

  /**
   * Filtering all n*n stacked entries of the zeroed matrix gives exactly the
   * lower-triangle pairs above the threshold, in the same order.
   */
  lemma StackMatchesLowerTriangle(cor: Matrix, n: nat, threshold: real)
    requires 0.0 <= threshold
    ensures LegacyPassing(cor, n, threshold) == Passing(cor, n, threshold)
  {
    RowsMatch(cor, n, threshold, n);
  }

  /** The features the older filter excludes, for a non-negative threshold. */
  function LegacySelect(names: seq<string>, cor: Matrix, threshold: real): (r: seq<string>)
    requires 0.0 <= threshold
    ensures r == SelectCorrelated(names, cor, threshold)
  {
    var passing := LegacyPassing(cor, |names|, threshold);
    StackMatchesLowerTriangle(cor, |names|, threshold);
    if passing == [] then []
    else Dedup(Losers(names, cor, passing))
  }

  /** The columns correlated, as written: with `"infer"` the frame is not narrowed. */
  function CorrelatedAsWritten(g: Frame, features: FeatureArg): seq<string>
  {
    match features
    case Infer => g.columns
    case Names(names) => names
  }

  /** The columns meant to be correlated: the inferred non-`Metadata_` ones. */
  function CorrelatedIntended(g: Frame, features: FeatureArg): seq<string>
  {
    match features
    case Infer => LVT.InferLegacy(g.columns)
    case Names(names) => names
  }

  /** The shared body of both versions, given how the correlated columns are chosen. */
  function Run(f: Frame, features: FeatureArg, samples: LVT.LegacySamples, threshold: real,
               name: string, cor: Matrix, intended: bool): (r: Result<seq<string>>)
    requires Valid(f)
    ensures !(0.0 <= threshold <= 1.0) ==> r == Raise(AssertionError, "threshold variable must be between (0 and 1)")
    ensures 0.0 <= threshold <= 1.0 && Lower(name) !in CorrelationMethods ==>
      r == Raise(AssertionError, "method not supported, select one of ['pearson', 'spearman', 'kendall']")
    ensures r.Ok? ==> 0.0 <= threshold <= 1.0 && Lower(name) in CorrelationMethods
    ensures r.Ok? ==> NoDup(r.value)
  {
    var lowered := Lower(name);
    if !(0.0 <= threshold <= 1.0) then Raise(AssertionError, "threshold variable must be between (0 and 1)")
    else if lowered !in CorrelationMethods then
      Raise(AssertionError, "method not supported, select one of ['pearson', 'spearman', 'kendall']")
    else
      var g :- LVT.SelectLegacy(f, samples);
      var names := if intended then CorrelatedIntended(g, features) else CorrelatedAsWritten(g, features);
      var check := CheckColumns(g, names);
      if check.Fail? then Err(check.error)
      else Ok(LegacySelect(names, cor, threshold))
  }

  /** `correlation_threshold` as written. */
  function LegacyCorrelationThreshold(f: Frame, features: FeatureArg, samples: LVT.LegacySamples, threshold: real,
                                      name: string, cor: Matrix): (r: Result<seq<string>>)
    requires Valid(f)
    ensures r.Ok? ==> (LVT.SelectLegacy(f, samples).Ok? &&
      r.value == SelectCorrelated(CorrelatedAsWritten(LVT.SelectLegacy(f, samples).value, features), cor, threshold))
  {
    Run(f, features, samples, threshold, name, cor, false)
  }

  /** `correlation_threshold` with the inferred feature list applied to the frame. */
  function LegacyCorrelationThresholdIntended(f: Frame, features: FeatureArg, samples: LVT.LegacySamples,
                                              threshold: real, name: string, cor: Matrix): (r: Result<seq<string>>)
    requires Valid(f)
    ensures r.Ok? ==> (LVT.SelectLegacy(f, samples).Ok? &&
      r.value == SelectCorrelated(CorrelatedIntended(LVT.SelectLegacy(f, samples).value, features), cor, threshold))
  {
    Run(f, features, samples, threshold, name, cor, true)
  }

  /**
   * As written, `"infer"` correlates every column, so a `Metadata_` column
   * that loses a pair above the threshold is returned for exclusion.
   */
  lemma InferExcludesMetadata(f: Frame, threshold: real, name: string, cor: Matrix, a: nat, b: nat)
    requires Valid(f) && 0.0 <= threshold <= 1.0 && Lower(name) in CorrelationMethods
    requires b < a < |f.columns| && At(cor, a, b) > threshold
    requires !LVT.NotMetadata(f.columns[Loser(cor, |f.columns|, a, b)])
    ensures LegacyCorrelationThreshold(f, Infer, LVT.NoSamples, threshold, name, cor).Ok?
    ensures exists x :: x in LegacyCorrelationThreshold(f, Infer, LVT.NoSamples, threshold, name, cor).value
                        && !LVT.NotMetadata(x)
  {
    assert HasColumns(f, f.columns);
    var r := LegacyCorrelationThreshold(f, Infer, LVT.NoSamples, threshold, name, cor);
    assert r == Ok(LegacySelect(f.columns, cor, threshold));
    LaterRankedExcluded(f.columns, cor, threshold, a, b);
  }

  /** With the inferred list applied, no `Metadata_` column is ever excluded under `"infer"`. */
  lemma IntendedSkipsMetadata(f: Frame, samples: LVT.LegacySamples, threshold: real, name: string, cor: Matrix)
    requires Valid(f)
    requires LegacyCorrelationThresholdIntended(f, Infer, samples, threshold, name, cor).Ok?
    ensures forall i :: 0 <= i < |LegacyCorrelationThresholdIntended(f, Infer, samples, threshold, name, cor).value| ==>
      LVT.NotMetadata(LegacyCorrelationThresholdIntended(f, Infer, samples, threshold, name, cor).value[i])
  {
  }
}
