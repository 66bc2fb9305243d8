/**
 * The feature-selection driver (feature_select.py). Operations run one after
 * another; each sees only the features not excluded so far, and the union of
 * all exclusions is dropped from the profiles once at the end.
 */
module FeatureSelect {
  import opened Seqs
  import opened Wrappers
  import opened Frames
  import VT = VarianceThreshold
  import NA = NaColumns
  import CT = CorrelationThreshold
  import opened Util

  const AllOps: seq<string> := ["variance_threshold", "correlation_threshold", "drop_na_columns",
                                "blocklist", "drop_outliers", "noise_removal"]

  /** The `operation` argument: a list, a string, or a value of some other type. */
  datatype OperationArg = OpList(ops: seq<string>) | OpString(op: string) | OtherOperation

  /** The keyword settings the operations read. */
  datatype Settings = Settings(
    naCutoff: real, corrThreshold: real, corrMethod: string, freqCut: real, uniqueCut: real,
    noiseGroups: Option<seq<string>>, noiseCutoff: Option<real>)

  /**
   * What the model takes as given: the correlation matrix of a feature list,
   * the outlier and noise-removal filters (numeric), the contents of the
   * blocklist file, and the features inferred from the profiles.
   */
  datatype Env = Env(
    cor: seq<string> -> Matrix, outliers: seq<string> -> seq<string>,
    noise: seq<string> -> seq<string>, blocklist: seq<string>, inferred: seq<string>)

  /** The function either returns profiles or returns (not raises) an error object. */
  datatype Returned = Profiles(frame: Frame) | ReturnedError(error: Error)

  /** Operation validation: the list of operations to run. */
  function CheckOperation(operation: OperationArg): (r: Result<Option<seq<string>>>)
    ensures r.Ok? && r.value.Some? ==> forall i :: 0 <= i < |r.value.value| ==> r.value.value[i] in AllOps
    ensures r.Ok? && r.value.None? <==> operation.OtherOperation?
    ensures operation.OpString? && r.Ok? ==> r.value == Some([operation.op])
    ensures operation.OpList? && r.Ok? ==> r.value == Some(operation.ops)
    ensures r.Err? <==> (operation.OpList? && exists i :: 0 <= i < |operation.ops| && operation.ops[i] !in AllOps)
                        || (operation.OpString? && operation.op !in AllOps)
    ensures r.Err? ==> r.error.kind == ValueError
  {
    match operation
    case OpList(ops) =>
      if exists i :: 0 <= i < |ops| && ops[i] !in AllOps then
        Raise(ValueError, "Some operation(s) " + ListRepr(ops) + " not supported. Choose " + ListRepr(AllOps))
      else Ok(Some(ops))
    case OpString(op) =>
      if op !in AllOps then Raise(ValueError, op + " not supported. Choose " + ListRepr(AllOps))
      else Ok(Some([op]))
    case OtherOperation => Ok(None)
  }

  /** The exclusions of one operation, given the current feature list. */
  function Exclude(op: string, profiles: Frame, features: seq<string>, samples: Samples,
                   s: Settings, env: Env): (r: Result<seq<string>>)
    requires Valid(profiles) && SamplesFit(profiles, samples)
  {
    if op == "variance_threshold" then
      VT.VarianceThreshold(profiles, Names(features), env.inferred, samples, s.freqCut, s.uniqueCut)
    else if op == "drop_na_columns" then
      NA.GetNaColumns(profiles, Names(features), env.inferred, samples, s.naCutoff)
    else if op == "correlation_threshold" then
      CT.CorrelationThreshold(profiles, Names(features), env.inferred, samples, s.corrThreshold, s.corrMethod,
                              env.cor(features))
    else if op == "blocklist" then
      Ok(Filter(env.blocklist, (x: string) => x in profiles.columns))
    else if op == "drop_outliers" then
      Ok(env.outliers(features))
    else if op == "noise_removal" then
      if s.noiseGroups.None? || s.noiseCutoff.None? then
        Raise(ValueError, "If using noise_removal, must provide both noise_removal_perturb_groups and noise_removal_stdev_cutoff")
      else Ok(env.noise(features))
    else Ok([])
  }

  /** The features not excluded so far, in their original order. */
  function Remaining(features: seq<string>, excluded: seq<string>): (r: seq<string>)
    ensures forall x :: x in r <==> x in features && x !in excluded
    ensures Subseq(r, features)
  {
    FilterSubseq(features, NotIn(excluded));
    var r := Filter(features, NotIn(excluded));
    assert forall x :: x in r ==> x in features by {
      forall x | x in r ensures x in features {
        var i :| 0 <= i < |r| && r[i] == x;
      }
    }
    assert forall x :: x in features && x !in excluded ==> x in r by {
      forall x | x in features && x !in excluded ensures x in r {
        var i :| 0 <= i < |features| && features[i] == x;
      }
    }
    r
  }

  /**
   * The loop after the first `|ops|` operations: everything excluded so far
   * (with repetitions) and the current feature list.
   */
  function Chain(ops: seq<string>, profiles: Frame, features: seq<string>, samples: Samples,
                 s: Settings, env: Env): (r: Result<(seq<string>, seq<string>)>)
    requires Valid(profiles) && SamplesFit(profiles, samples)
  {
    if ops == [] then Ok(([], features))
    else
      var state :- Chain(ops[..|ops| - 1], profiles, features, samples, s, env);
      var exclude :- Exclude(ops[|ops| - 1], profiles, state.1, samples, s, env);
      var excluded := state.0 + exclude;
      Ok((excluded, Remaining(state.1, excluded)))
  }

  /** Once an operation fails, the whole chain fails with its error. */
  lemma {:induction false} ChainKeepsError(ops: seq<string>, k: nat, profiles: Frame, features: seq<string>,
                                           samples: Samples, s: Settings, env: Env)
    requires Valid(profiles) && SamplesFit(profiles, samples)
    requires k <= |ops| && Chain(ops[..k], profiles, features, samples, s, env).Err?
    ensures Chain(ops, profiles, features, samples, s, env) == Chain(ops[..k], profiles, features, samples, s, env)
    decreases |ops| - k
  {
    if k < |ops| {
      assert ops[..k + 1][..k] == ops[..k];
      ChainKeepsError(ops, k + 1, profiles, features, samples, s, env);
    } else {
      assert ops[..k] == ops;
    }
  }

  /** `feature_select` as a value: validation, the chained exclusions and the final drop. */
  function FeatureSelectSpec(profiles: Frame, features: FeatureArg, samples: Samples, operation: OperationArg,
                             s: Settings, env: Env): (r: Result<Returned>)
    requires Valid(profiles) && SamplesFit(profiles, samples)
  {
    var checked :- CheckOperation(operation);
    match checked
    case None => Ok(ReturnedError(Error(ValueError, "Operation must be a list or string")))
    case Some(ops) =>
      var state :- Chain(ops, profiles, ResolveFeatures(features, env.inferred), samples, s, env);
      var selected :- DropColumns(profiles, Dedup(state.0));
      Ok(Profiles(selected))
  }

  /** `feature_select`, running the operations in a loop as the source does. */
  method FeatureSelect(profiles: Frame, features: FeatureArg, samples: Samples, operation: OperationArg,
                       s: Settings, env: Env) returns (r: Result<Returned>)
    requires Valid(profiles) && SamplesFit(profiles, samples)
    ensures r == FeatureSelectSpec(profiles, features, samples, operation, s, env)
  {
    var checked := CheckOperation(operation);
    if checked.Err? {
      return Err(checked.error);
    }
    if checked.value.None? {
      return Ok(ReturnedError(Error(ValueError, "Operation must be a list or string")));
    }
    var ops := checked.value.value;
    var current := ResolveFeatures(features, env.inferred);
    var excluded: seq<string> := [];
    var i := 0;
    while i < |ops|
      invariant 0 <= i <= |ops|
      invariant Chain(ops[..i], profiles, ResolveFeatures(features, env.inferred), samples, s, env) == Ok((excluded, current))
    {
      ChainStep(ops, i, profiles, ResolveFeatures(features, env.inferred), samples, s, env, excluded, current);
      var exclude := Exclude(ops[i], profiles, current, samples, s, env);
      if exclude.Err? {
        ChainKeepsError(ops, i + 1, profiles, ResolveFeatures(features, env.inferred), samples, s, env);
        return Err(exclude.error);
      }
      excluded := excluded + exclude.value;
      current := Remaining(current, excluded);
      i := i + 1;
    }
    assert ops[..|ops|] == ops;
    var selected := DropColumns(profiles, Dedup(excluded));
    if selected.Err? {
      return Err(selected.error);
    }
    return Ok(Profiles(selected.value));
  }

  /** A string operation is run as the one-element list holding it. */
  lemma StringIsOneElementList(profiles: Frame, features: FeatureArg, samples: Samples, op: string,
                               s: Settings, env: Env)
    requires Valid(profiles) && SamplesFit(profiles, samples) && op in AllOps
    ensures FeatureSelectSpec(profiles, features, samples, OpString(op), s, env)
         == FeatureSelectSpec(profiles, features, samples, OpList([op]), s, env)
  {
  }

  /** An `operation` of another type makes the function return, not raise, a `ValueError`. */
  lemma OtherOperationReturnsError(profiles: Frame, features: FeatureArg, samples: Samples, s: Settings, env: Env)
    requires Valid(profiles) && SamplesFit(profiles, samples)
    ensures FeatureSelectSpec(profiles, features, samples, OtherOperation, s, env)
         == Ok(ReturnedError(Error(ValueError, "Operation must be a list or string")))
  {
  }

  lemma {:induction false} RemainingTwice(features: seq<string>, ex: seq<string>, more: seq<string>)
    ensures Remaining(Remaining(features, ex), ex + more) == Remaining(features, ex + more)
  {
    forall i | 0 <= i < |features| ensures NotIn(ex + more)(features[i]) ==> NotIn(ex)(features[i]) {
    }
    FilterFilter(features, NotIn(ex), NotIn(ex + more));
  }

  /**
   * Before every operation the working list is the original feature list
   * minus everything excluded so far, in the original order.
   */
  lemma {:induction false} ChainRemaining(ops: seq<string>, profiles: Frame, features: seq<string>,
                                          samples: Samples, s: Settings, env: Env)
    requires Valid(profiles) && SamplesFit(profiles, samples)
    requires Chain(ops, profiles, features, samples, s, env).Ok?
    ensures var state := Chain(ops, profiles, features, samples, s, env).value;
      state.1 == Remaining(features, state.0)
  {
    if ops == [] {
      FilterAll(features, NotIn([]));
    } else {
      var init := ops[..|ops| - 1];
      ChainRemaining(init, profiles, features, samples, s, env);
      var state := Chain(init, profiles, features, samples, s, env).value;
      var exclude := Exclude(ops[|ops| - 1], profiles, state.1, samples, s, env).value;
      RemainingTwice(features, state.0, exclude);
    }
  }

  /** No operation is handed a feature that an earlier operation excluded. */
  lemma LaterOperationsSkipExcluded(ops: seq<string>, k: nat, profiles: Frame, features: seq<string>,
                                    samples: Samples, s: Settings, env: Env, x: string)
    requires Valid(profiles) && SamplesFit(profiles, samples)
    requires k <= |ops| && Chain(ops[..k], profiles, features, samples, s, env).Ok?
    requires x in Chain(ops[..k], profiles, features, samples, s, env).value.0
    ensures x !in Chain(ops[..k], profiles, features, samples, s, env).value.1
  {
    ChainRemaining(ops[..k], profiles, features, samples, s, env);
  }

  lemma NoiseWithoutParameters(profiles: Frame, features: seq<string>, samples: Samples, s: Settings, env: Env)
    requires Valid(profiles) && SamplesFit(profiles, samples)
    requires s.noiseGroups.None? || s.noiseCutoff.None?
    ensures Exclude("noise_removal", profiles, features, samples, s, env) == Raise(ValueError,
      "If using noise_removal, must provide both noise_removal_perturb_groups and noise_removal_stdev_cutoff")
  {
  }

  /** One more operation of the chain: it fails with its own error, or extends the exclusions. */
  lemma ChainStep(ops: seq<string>, i: nat, profiles: Frame, features: seq<string>, samples: Samples,
                  s: Settings, env: Env, done: seq<string>, current: seq<string>)
    requires Valid(profiles) && SamplesFit(profiles, samples)
    requires i < |ops| && Chain(ops[..i], profiles, features, samples, s, env) == Ok((done, current))
    ensures var ex := Exclude(ops[i], profiles, current, samples, s, env);
      Chain(ops[..i + 1], profiles, features, samples, s, env)
        == if ex.Err? then Err(ex.error) else Ok((done + ex.value, Remaining(current, done + ex.value)))
  {
    var prefix := ops[..i + 1];
    assert prefix[..|prefix| - 1] == ops[..i];
    assert prefix[|prefix| - 1] == ops[i];
  }

  /** `noise_removal` without both of its parameters stops the run with a `ValueError`. */
  lemma NoiseRemovalNeedsParameters(ops: seq<string>, k: nat, profiles: Frame, features: seq<string>,
                                    samples: Samples, s: Settings, env: Env)
    requires Valid(profiles) && SamplesFit(profiles, samples)
    requires k < |ops| && ops[k] == "noise_removal" && (s.noiseGroups.None? || s.noiseCutoff.None?)
    requires Chain(ops[..k], profiles, features, samples, s, env).Ok?
    ensures Chain(ops, profiles, features, samples, s, env) == Raise(ValueError,
      "If using noise_removal, must provide both noise_removal_perturb_groups and noise_removal_stdev_cutoff")
  {
    var state := Chain(ops[..k], profiles, features, samples, s, env).value;
    NoiseWithoutParameters(profiles, state.1, samples, s, env);
    ChainStep(ops, k, profiles, features, samples, s, env, state.0, state.1);
    ChainKeepsError(ops, k + 1, profiles, features, samples, s, env);
  }

  /**
   * A successful run keeps exactly the columns excluded by no operation,
   * in their original order and with their values, metadata included.
   */
  lemma SelectedColumns(profiles: Frame, features: FeatureArg, samples: Samples, operation: OperationArg,
                        s: Settings, env: Env, ops: seq<string>)
    requires Valid(profiles) && SamplesFit(profiles, samples)
    requires CheckOperation(operation) == Ok(Some(ops))
    requires FeatureSelectSpec(profiles, features, samples, operation, s, env).Ok?
    ensures var excluded := Chain(ops, profiles, ResolveFeatures(features, env.inferred), samples, s, env).value.0;
      var out := FeatureSelectSpec(profiles, features, samples, operation, s, env).value;
      out.Profiles? && Subseq(out.frame.columns, profiles.columns)
      && (forall c :: c in out.frame.columns <==> c in profiles.columns && c !in excluded)
      && (forall c :: c in out.frame.data ==> out.frame.data[c] == profiles.data[c])
  {
    var excluded := Chain(ops, profiles, ResolveFeatures(features, env.inferred), samples, s, env).value.0;
    forall c ensures c in Dedup(excluded) <==> c in excluded {
      DedupMember(excluded, c);
    }
  }
}
