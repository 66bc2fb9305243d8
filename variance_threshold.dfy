/**
 * Near-zero-variance feature filter (operations/variance_threshold.py).
 * A feature is excluded when its second most common value is rare compared
 * with its most common one, or when it has few distinct values per sample.
 */
module VarianceThreshold {
  import opened Seqs
  import opened Wrappers
  import opened Frames

  /** The distinct non-missing values of a column, in first-seen order. */
  function Distinct(cells: seq<Cell>): (r: seq<Cell>)
    ensures NoDup(r)
    ensures forall i :: 0 <= i < |r| ==> r[i] != Null && r[i] in cells
  {
    Dedup(NonNull(cells))
  }

  /** How often each distinct value occurs: the counts of `value_counts()`. */
  function ValueCounts(cells: seq<Cell>): (r: seq<nat>)
    ensures |r| == |Distinct(cells)|
  {
    var d := Distinct(cells);
    seq(|d|, i requires 0 <= i < |d| => Count(cells, d[i]))
  }

  function MaxOf(s: seq<nat>): (m: nat)
    requires s != []
    ensures m in s
    ensures forall i :: 0 <= i < |s| ==> s[i] <= m
  {
    if |s| == 1 then s[0]
    else
      var rest := MaxOf(s[1..]);
      if s[0] >= rest then s[0] else rest
  }

  /** `s` without its first occurrence of `x`. */
  function RemoveOne(s: seq<nat>, x: nat): (r: seq<nat>)
    requires x in s
    ensures |r| == |s| - 1
    ensures forall i :: 0 <= i < |r| ==> r[i] in s
  {
    if s[0] == x then s[1..] else [s[0]] + RemoveOne(s[1..], x)
  }

  /** `val_count.iloc[0]`: the largest count. */
  function TopCount(cells: seq<Cell>): nat
    requires |ValueCounts(cells)| >= 1
  {
    MaxOf(ValueCounts(cells))
  }

  /** `val_count.iloc[1]`: the count ranked second (a tie with the first is kept). */
  function SecondCount(cells: seq<Cell>): nat
    requires |ValueCounts(cells)| >= 2
  {
    var counts := ValueCounts(cells);
    MaxOf(RemoveOne(counts, MaxOf(counts)))
  }

  lemma {:induction false} CountsPositive(cells: seq<Cell>)
    ensures forall i :: 0 <= i < |ValueCounts(cells)| ==> ValueCounts(cells)[i] >= 1
  {
    var d := Distinct(cells);
    forall i | 0 <= i < |d| ensures Count(cells, d[i]) >= 1 {
      assert d[i] in cells;
    }
  }

  lemma RatioBounds(a: nat, b: nat)
    requires 0 < b && a <= b
    ensures 0.0 <= (a as real) / (b as real) <= 1.0
    ensures a == b ==> (a as real) / (b as real) == 1.0
  {
    var q := (a as real) / (b as real);
    assert q * (b as real) == a as real;
  }

  lemma SecondAtMostTop(counts: seq<nat>)
    requires |counts| >= 2
    ensures MaxOf(RemoveOne(counts, MaxOf(counts))) <= MaxOf(counts)
  {
    var rest := RemoveOne(counts, MaxOf(counts));
    assert MaxOf(rest) in rest;
  }

  /** The ratio `second_max_count / max_count`, defined when two values exist. */
  function FrequencyRatio(cells: seq<Cell>): (q: real)
    requires |ValueCounts(cells)| >= 2
    ensures 0.0 <= q <= 1.0
  {
    CountsPositive(cells);
    var top := TopCount(cells);
    var second := SecondCount(cells);
    SecondAtMostTop(ValueCounts(cells));
    RatioBounds(second, top);
    (second as real) / (top as real)
  }

  /**
   * `calculate_frequency` returns `NaN` (the column is flagged) when there
   * is no value, a single distinct value, or a ratio below `freqCut`.
   */
  predicate LowFrequency(cells: seq<Cell>, freqCut: real)
  {
    |ValueCounts(cells)| < 2 || FrequencyRatio(cells) < freqCut
  }

  /** `nunique() / n < unique_cut`; with no rows the ratio is `NaN` and nothing is flagged. */
  predicate LowUniqueness(cells: seq<Cell>, uniqueCut: real)
  {
    |cells| > 0 && (|Distinct(cells)| as real) / (|cells| as real) < uniqueCut
  }

  predicate Excluded(cells: seq<Cell>, freqCut: real, uniqueCut: real)
  {
    LowFrequency(cells, freqCut) || LowUniqueness(cells, uniqueCut)
  }

  /** The frame and features after `samples` and `features` were applied. */
  function Selected(f: Frame, samples: Samples): Frame
    requires Valid(f) && SamplesFit(f, samples)
  {
    ApplySamples(f, samples)
  }

  /** The exclusions of one rule over the features, in feature order. */
  function Flagged(g: Frame, names: seq<string>, p: seq<Cell> -> bool): (r: seq<string>)
    ensures forall x :: x in r <==> x in names && x in g.data && p(g.data[x])
  {
    Filter(names, (x: string) => x in g.data && p(g.data[x]))
  }

  function VarianceThreshold(f: Frame, features: FeatureArg, inferred: seq<string>, samples: Samples,
                             freqCut: real, uniqueCut: real): (r: Result<seq<string>>)
    requires Valid(f) && SamplesFit(f, samples)
    ensures !(0.0 <= freqCut <= 1.0) ==>
      r == Raise(ValueError, "freq_cut variable must be between (0 and 1)")
    ensures 0.0 <= freqCut <= 1.0 && !(0.0 <= uniqueCut <= 1.0) ==>
      r == Raise(ValueError, "unique_cut variable must be between (0 and 1)")
    ensures r.Ok? <==> 0.0 <= freqCut <= 1.0 && 0.0 <= uniqueCut <= 1.0
                       && HasColumns(f, ResolveFeatures(features, inferred))
    ensures r.Err? && 0.0 <= freqCut <= 1.0 && 0.0 <= uniqueCut <= 1.0 ==> r.error.kind == KeyError
    ensures r.Ok? ==> NoDup(r.value)
  {
    if !(0.0 <= freqCut <= 1.0) then Raise(ValueError, "freq_cut variable must be between (0 and 1)")
    else if !(0.0 <= uniqueCut <= 1.0) then Raise(ValueError, "unique_cut variable must be between (0 and 1)")
    else
      var g := Selected(f, samples);
      var names := ResolveFeatures(features, inferred);
      var check := CheckColumns(g, names);
      if check.Fail? then Err(check.error)
      else
        var byFreq := Flagged(g, names, (c: seq<Cell>) => LowFrequency(c, freqCut));
        var byUnique := Flagged(g, names, (c: seq<Cell>) => LowUniqueness(c, uniqueCut));
        Ok(Dedup(byFreq + byUnique))
  }

  /**
   * A feature is in the result exactly when it is one of the requested
   * features and it fails the frequency rule or the uniqueness rule.
   */
  lemma {:induction false} VarianceThresholdExcludes(f: Frame, features: FeatureArg, inferred: seq<string>,
                                                     samples: Samples, freqCut: real, uniqueCut: real, x: string)
    requires Valid(f) && SamplesFit(f, samples)
    requires VarianceThreshold(f, features, inferred, samples, freqCut, uniqueCut).Ok?
    ensures x in VarianceThreshold(f, features, inferred, samples, freqCut, uniqueCut).value <==>
      x in ResolveFeatures(features, inferred) && Excluded(Selected(f, samples).data[x], freqCut, uniqueCut)
  {
    var g := Selected(f, samples);
    var names := ResolveFeatures(features, inferred);
    var byFreq := Flagged(g, names, (c: seq<Cell>) => LowFrequency(c, freqCut));
    var byUnique := Flagged(g, names, (c: seq<Cell>) => LowUniqueness(c, uniqueCut));
    DedupMember(byFreq + byUnique, x);
  }

  lemma MemberOfConstant(cells: seq<Cell>, v: Cell, x: Cell)
    requires forall i :: 0 <= i < |cells| ==> cells[i] == v
    requires x in cells
    ensures x == v
  {
  }

  /** A column holding one repeated value is always excluded. */
  lemma {:induction false} ConstantColumnExcluded(cells: seq<Cell>, v: Cell, freqCut: real)
    requires v != Null
    requires forall i :: 0 <= i < |cells| ==> cells[i] == v
    ensures LowFrequency(cells, freqCut)
  {
    var d := Distinct(cells);
    if |d| >= 2 {
      MemberOfConstant(cells, v, d[0]);
      MemberOfConstant(cells, v, d[1]);
      assert false;
    }
  }

  /** With `freq_cut == 0` only columns with fewer than two values fail the frequency rule. */
  lemma ZeroFreqCut(cells: seq<Cell>)
    ensures LowFrequency(cells, 0.0) <==> |ValueCounts(cells)| < 2
  {
  }

  /** Two values that are equally common are never excluded by frequency (for `freq_cut <= 1`). */
  lemma {:induction false} BalancedPairKept(cells: seq<Cell>, freqCut: real)
    requires |ValueCounts(cells)| == 2
    requires ValueCounts(cells)[0] == ValueCounts(cells)[1]
    requires freqCut <= 1.0
    ensures !LowFrequency(cells, freqCut)
  {
    CountsPositive(cells);
    var counts := ValueCounts(cells);
    assert MaxOf(counts) == counts[0];
    assert RemoveOne(counts, counts[0]) == [counts[1]];
    RatioBounds(counts[1], counts[0]);
  }

  /** With `unique_cut == 0` the uniqueness rule never fires. */
  lemma ZeroUniqueCut(cells: seq<Cell>)
    ensures !LowUniqueness(cells, 0.0)
  {
    if |cells| > 0 {
      RatioNonNegative(|Distinct(cells)|, |cells|);
    }
  }

  lemma RatioNonNegative(a: nat, b: nat)
    requires 0 < b
    ensures (a as real) / (b as real) >= 0.0
  {
    var q := (a as real) / (b as real);
    assert q * (b as real) == a as real;
  }
}
