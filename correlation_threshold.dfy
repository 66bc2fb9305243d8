/**
 * Correlation feature filter (operations/correlation_threshold.py). For every
 * pair of features whose correlation exceeds the threshold, the feature with
 * the larger total absolute correlation to all features is excluded.
 * The correlation matrix itself is computed outside the model and given.
 */
module CorrelationThreshold {
  import opened Seqs
  import opened Wrappers
  import opened Frames
  import opened Util

  function Abs(x: real): real { if x < 0.0 then -x else x }

  /** Column `j` of `data_cor_df.abs().sum()` over the first `n` rows. */
  function AbsSum(m: Matrix, n: nat, j: nat): (s: real)
    ensures s >= 0.0
  {
    if n == 0 then 0.0 else AbsSum(m, n - 1, j) + Abs(At(m, n - 1, j))
  }

  /**
   * Feature `a` comes after feature `b` in the ascending sort of absolute
   * correlation sums; equal sums keep the original column order.
   */
  predicate RankedAfter(m: Matrix, n: nat, a: nat, b: nat): (r: bool)
    ensures r ==> a != b
    ensures AbsSum(m, n, a) > AbsSum(m, n, b) ==> r
    ensures AbsSum(m, n, a) < AbsSum(m, n, b) ==> !r
  {
    AbsSum(m, n, a) > AbsSum(m, n, b) || (AbsSum(m, n, a) == AbsSum(m, n, b) && a > b)
  }

  /** Of two different features exactly one is ranked after the other. */
  lemma RankedAfterTotal(m: Matrix, n: nat, a: nat, b: nat)
    requires a != b
    ensures RankedAfter(m, n, a, b) != RankedAfter(m, n, b, a)
  {
  }

  /** `determine_high_cor_pair`: the member of the pair that is ranked later. */
  function Loser(m: Matrix, n: nat, a: nat, b: nat): (r: nat)
    requires a != b
    ensures r == a || r == b
    ensures r == a <==> RankedAfter(m, n, a, b)
    ensures r == b <==> RankedAfter(m, n, b, a)
  {
    if RankedAfter(m, n, a, b) then a else b
  }

  /** The query `correlation > @threshold` on one stacked entry. */
  function AboveAt(m: Matrix, threshold: real): ((nat, nat)) -> bool
  {
    (p: (nat, nat)) => At(m, p.0, p.1) > threshold
  }

  /** The strict lower triangle entries above the threshold, in stacked order. */
  function Passing(m: Matrix, n: nat, threshold: real): (r: seq<(nat, nat)>)
    ensures forall k :: 0 <= k < |r| ==> r[k].1 < r[k].0 < n && At(m, r[k].0, r[k].1) > threshold
    ensures forall a, b :: 0 <= b < a < n && At(m, a, b) > threshold ==> (a, b) in r
  {
    var all := LowerPairs(n);
    var r := Filter(all, AboveAt(m, threshold));
    assert forall k :: 0 <= k < |r| ==> r[k] in all;
    forall a, b | 0 <= b < a < n && At(m, a, b) > threshold ensures (a, b) in r {
      var i :| 0 <= i < |all| && all[i] == (a, b);
    }
    r
  }

  /** The `apply` of `determine_high_cor_pair` over the passing pairs, one name per pair. */
  function Losers(names: seq<string>, cor: Matrix, pairs: seq<(nat, nat)>): (r: seq<string>)
    requires forall k :: 0 <= k < |pairs| ==> pairs[k].0 < |names| && pairs[k].1 < |names| && pairs[k].0 != pairs[k].1
    ensures |r| == |pairs|
    ensures forall k :: 0 <= k < |pairs| ==> r[k] == names[Loser(cor, |names|, pairs[k].0, pairs[k].1)]
  {
    seq(|pairs|, k requires 0 <= k < |pairs| => names[Loser(cor, |names|, pairs[k].0, pairs[k].1)])
  }

  /** The features to exclude for the given correlation matrix and threshold, without repetition. */
  function SelectCorrelated(names: seq<string>, cor: Matrix, threshold: real): (r: seq<string>)
    ensures NoDup(r)
    ensures forall i :: 0 <= i < |r| ==> r[i] in names
  {
    var passing := Passing(cor, |names|, threshold);
    if passing == [] then []
    else Dedup(Losers(names, cor, passing))
  }

  function CorrelationThreshold(f: Frame, features: FeatureArg, inferred: seq<string>, samples: Samples,
                                threshold: real, name: string, cor: Matrix): (r: Result<seq<string>>)
    requires Valid(f) && SamplesFit(f, samples)
    ensures CheckCorrelationMethod(name).Err? ==> r == Err(CheckCorrelationMethod(name).error)
    ensures CheckCorrelationMethod(name).Ok? && !(0.0 <= threshold <= 1.0) ==>
      r == Raise(ValueError, "threshold variable must be between (0 and 1)")
    ensures r.Ok? <==> CheckCorrelationMethod(name).Ok? && 0.0 <= threshold <= 1.0
                       && HasColumns(f, ResolveFeatures(features, inferred))
    ensures r.Ok? ==> r.value == SelectCorrelated(ResolveFeatures(features, inferred), cor, threshold)
  {
    var _ :- CheckCorrelationMethod(name);
    if !(0.0 <= threshold <= 1.0) then Raise(ValueError, "threshold variable must be between (0 and 1)")
    else
      var g := ApplySamples(f, samples);
      var names := ResolveFeatures(features, inferred);
      var check := CheckColumns(g, names);
      if check.Fail? then Err(check.error)
      else Ok(SelectCorrelated(names, cor, threshold))
  }

  /** A feature is excluded exactly when it loses some pair above the threshold. */
  lemma SelectCorrelatedExcludes(names: seq<string>, cor: Matrix, threshold: real, x: string)
    ensures x in SelectCorrelated(names, cor, threshold) <==>
      exists a, b :: 0 <= b < a < |names| && At(cor, a, b) > threshold && names[Loser(cor, |names|, a, b)] == x
  {
    if x in SelectCorrelated(names, cor, threshold) {
      var a, b := ExcludedForPair(names, cor, threshold, x);
    }
    if exists a, b :: 0 <= b < a < |names| && At(cor, a, b) > threshold && names[Loser(cor, |names|, a, b)] == x {
      var a, b :| 0 <= b < a < |names| && At(cor, a, b) > threshold && names[Loser(cor, |names|, a, b)] == x;
      LaterRankedExcluded(names, cor, threshold, a, b);
    }
  }

  /** Every excluded feature loses some pair above the threshold. */
  lemma ExcludedForPair(names: seq<string>, cor: Matrix, threshold: real, x: string) returns (a: nat, b: nat)
    requires x in SelectCorrelated(names, cor, threshold)
    ensures b < a < |names| && At(cor, a, b) > threshold && names[Loser(cor, |names|, a, b)] == x
  {
    var passing := Passing(cor, |names|, threshold);
    var losers := Losers(names, cor, passing);
    DedupMember(losers, x);
    var k :| 0 <= k < |losers| && losers[k] == x;
    a, b := passing[k].0, passing[k].1;
  }

  /** Of every pair above the threshold, the later-ranked feature is excluded. */
  lemma LaterRankedExcluded(names: seq<string>, cor: Matrix, threshold: real, a: nat, b: nat)
    requires b < a < |names| && At(cor, a, b) > threshold
    ensures names[Loser(cor, |names|, a, b)] in SelectCorrelated(names, cor, threshold)
  {
    var passing := Passing(cor, |names|, threshold);
    assert (a, b) in passing;
    var k :| 0 <= k < |passing| && passing[k] == (a, b);
    var losers := Losers(names, cor, passing);
    assert losers[k] == names[Loser(cor, |names|, a, b)];
    DedupMember(losers, losers[k]);
  }

  /** No two features that both survive are correlated above the threshold. */
  lemma SurvivorsBelowThreshold(names: seq<string>, cor: Matrix, threshold: real, a: nat, b: nat)
    requires b < a < |names|
    requires names[a] !in SelectCorrelated(names, cor, threshold)
    requires names[b] !in SelectCorrelated(names, cor, threshold)
    ensures At(cor, a, b) <= threshold
  {
    if At(cor, a, b) > threshold {
      LaterRankedExcluded(names, cor, threshold, a, b);
    }
  }

  /** The feature ranked first (smallest absolute correlation sum) is never excluded. */
  lemma FirstRankedKept(names: seq<string>, cor: Matrix, threshold: real, z: nat)
    requires NoDup(names) && z < |names|
    requires forall j :: 0 <= j < |names| && j != z ==> RankedAfter(cor, |names|, j, z)
    ensures names[z] !in SelectCorrelated(names, cor, threshold)
  {
    var n := |names|;
    forall a, b | 0 <= b < a < n ensures names[Loser(cor, n, a, b)] != names[z] {
      assert Loser(cor, n, a, b) != z;
    }
    SelectCorrelatedExcludes(names, cor, threshold, names[z]);
  }

  /** Raising the threshold can only shrink the exclusions. */
  lemma ThresholdMonotone(names: seq<string>, cor: Matrix, t1: real, t2: real, x: string)
    requires t1 <= t2
    requires x in SelectCorrelated(names, cor, t2)
    ensures x in SelectCorrelated(names, cor, t1)
  {
    SelectCorrelatedExcludes(names, cor, t2, x);
    SelectCorrelatedExcludes(names, cor, t1, x);
  }

  /** Nothing is excluded when no pair exceeds the threshold (the early `return []`). */
  lemma {:induction false} NothingAboveThreshold(names: seq<string>, cor: Matrix, threshold: real)
    requires forall a, b :: 0 <= b < a < |names| ==> At(cor, a, b) <= threshold
    ensures SelectCorrelated(names, cor, threshold) == []
  {
  }

  lemma LowerPairsThree()
    ensures LowerPairs(3) == [(1, 0), (2, 0), (2, 1)]
  {
    assert LowerPairs(1) == [] by { assert LowerRow(0) == []; }
    assert LowerPairs(2) == [(1, 0)] by { assert LowerRow(1) == [(1, 0)]; }
    assert LowerRow(2) == [(2, 0), (2, 1)];
  }

  lemma PassingThree(cor: Matrix, threshold: real)
    requires At(cor, 1, 0) > threshold && At(cor, 2, 0) <= threshold && At(cor, 2, 1) <= threshold
    ensures Passing(cor, 3, threshold) == [(1, 0)]
  {
    var p := (q: (nat, nat)) => At(cor, q.0, q.1) > threshold;
    var all: seq<(nat, nat)> := [(1, 0), (2, 0), (2, 1)];
    LowerPairsThree();
    assert all[1..][1..] == [(2, 1)];
    assert Filter([(2, 1)], p) == [];
    assert Filter(all[1..], p) == [];
  }

  /**
   * Two strongly correlated features and a third one that is not: exactly
   * one of the two is excluded, and never the third.
   */
  lemma {:induction false} OneOfCorrelatedPair(names: seq<string>, cor: Matrix, threshold: real)
    requires |names| == 3 && NoDup(names)
    requires At(cor, 1, 0) > threshold && At(cor, 2, 0) <= threshold && At(cor, 2, 1) <= threshold
    ensures SelectCorrelated(names, cor, threshold) == [names[Loser(cor, 3, 1, 0)]]
    ensures names[2] !in SelectCorrelated(names, cor, threshold)
  {
    PassingThree(cor, threshold);
    var l := Loser(cor, 3, 1, 0);
    var losers := Losers(names, cor, Passing(cor, |names|, threshold));
    assert losers == [names[l]] by {
      assert |losers| == 1 && losers[0] == names[l];
    }
    DedupOfNoDup(losers);
    assert names[l] != names[2] by {
      assert l < 2;
    }
  }
}
