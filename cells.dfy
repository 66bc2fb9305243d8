/**
 * The `SingleCells` class of cyto_utils/cells.py: its constructor checks,
 * the subsampling settings and their setters, the split of column names
 * into metadata and features, the merge plan and rename map of
 * `merge_single_cells`, and the SQL text that selects aggregation strata.
 */
module Cells {
  import opened Seqs
  import opened Strings
  import opened Wrappers
  import Util
  import LinkingCols

  // ------------------------------------------------------------- int(value)

  /** A value handed to Python's `int()`. */
  datatype Value = IntValue(i: int) | RealValue(x: real) | TextValue(s: string) | OtherValue(typeName: string)

  /** `int(x)` of a float: truncation toward zero. */
  function Truncate(x: real): (r: int)
    ensures x >= 0.0 ==> 0.0 <= r as real <= x < r as real + 1.0
    ensures x < 0.0 ==> r as real - 1.0 < x <= r as real <= 0.0
  {
    if x >= 0.0 then x.Floor else -((-x).Floor)
  }

  /** `int(v)`: integers unchanged, floats truncated, text parsed in base 10. */
  function PyInt(v: Value): (r: Result<int>)
    ensures v.IntValue? ==> r == Ok(v.i)
    ensures v.RealValue? ==> r == Ok(Truncate(v.x))
    ensures v.TextValue? ==> (r.Ok? <==> IsNumeral(Strip(v.s))) && (r.Err? ==> r.error.kind == ValueError)
    ensures v.OtherValue? ==> r.Err? && r.error.kind == TypeError
  {
    match v
    case IntValue(i) => Ok(i)
    case RealValue(x) => Ok(Truncate(x))
    case TextValue(s) =>
      var p := ParseInt(s);
      if p.Some? then Ok(p.value) else Raise(ValueError, "invalid literal for int() with base 10: '" + s + "'")
    case OtherValue(t) =>
      Raise(TypeError, "int() argument must be a string, a bytes-like object or a real number, not '" + t + "'")
  }

  // --------------------------------------------------- subsampling settings

  /** `subsample_n`: the string "all", or a number of cells. */
  datatype SubsampleN = All | Exactly(n: int)

  const BothSubsampling: string := "Do not set both subsample_frac and subsample_n"
  const NotCoercible: string := "subsample n must be an integer or coercable"
  const FracRange: string := "subsample_frac must be between 0 and 1"
  const StrataMemory: string :=
    "Number of strata to pull into memory at once (n_aggregation_memory_strata) must be > 0"

  /** The fields of a `SingleCells` object that this model keeps. */
  datatype Settings = Settings(
    strata: seq<string>,
    aggregationOperation: string,
    outputFile: Option<string>,
    mergeCols: seq<string>,
    compartments: seq<string>,
    linkingCols: LinkingCols.LinksArg,
    linkingColRename: map<string, string>,
    subsampleFrac: real,
    subsampleN: SubsampleN,
    randomState: Option<int>,
    isAggregated: bool,
    isSubsetComputed: bool)

  /** Subsampling is set by a fraction or by a count, never both. */
  predicate SubsamplingValid(s: Settings)
  {
    s.subsampleFrac == 1.0 || s.subsampleN.All?
  }

  /** `_check_subsampling`. */
  function SubsamplingCheck(s: Settings): (r: Outcome)
    ensures r.Pass? <==> SubsamplingValid(s)
    ensures r.Fail? ==> r.error == Error(AssertionError, BothSubsampling)
  {
    Check(s.subsampleFrac == 1.0 || s.subsampleN.All?, AssertionError, BothSubsampling)
  }

  /** `set_output_file`: only the output file changes. */
  function WithOutputFile(s: Settings, file: Option<string>): (r: Settings)
    ensures r.outputFile == file && r.(outputFile := s.outputFile) == s
  {
    s.(outputFile := file)
  }

  /** `set_subsample_frac`: the fraction is stored first and checked afterwards, with no range check. */
  function WithSubsampleFrac(s: Settings, frac: real): (r: (Settings, Outcome))
    ensures r.0.subsampleFrac == frac && r.0.(subsampleFrac := s.subsampleFrac) == s
    ensures r.1.Pass? <==> frac == 1.0 || s.subsampleN.All?
    ensures r.1.Fail? ==> r.1.error == Error(AssertionError, BothSubsampling)
  {
    var t := s.(subsampleFrac := frac);
    (t, SubsamplingCheck(t))
  }

  /**
   * `set_subsample_n`: `int(n)` is stored, then checked; a value `int()`
   * rejects with ValueError leaves the object as it was.
   */
  function WithSubsampleN(s: Settings, v: Value): (r: (Settings, Outcome))
    ensures PyInt(v).Ok? ==> r.0 == s.(subsampleN := Exactly(PyInt(v).value))
    ensures PyInt(v).Ok? ==> (r.1.Pass? <==> s.subsampleFrac == 1.0)
    ensures PyInt(v).Err? ==> r.0 == s && r.1.Fail?
    ensures r.1.Fail? && PyInt(v).Ok? ==> r.1.error == Error(AssertionError, BothSubsampling)
    ensures PyInt(v).Err? && PyInt(v).error.kind == ValueError ==> r.1.error == Error(ValueError, NotCoercible)
    ensures PyInt(v).Err? && PyInt(v).error.kind != ValueError ==> r.1.error == PyInt(v).error
  {
    var n := PyInt(v);
    if n.Err? then
      if n.error.kind == ValueError then (s, Fail(Error(ValueError, NotCoercible))) else (s, Fail(n.error))
    else
      var t := s.(subsampleN := Exactly(n.value));
      (t, SubsamplingCheck(t))
  }

  /** `set_subsample_random_state`: only the random state changes. */
  function WithRandomState(s: Settings, state: Option<int>): (r: Settings)
    ensures r.randomState == state && r.(randomState := s.randomState) == s
  {
    s.(randomState := state)
  }

  /** A call of one of the four setters. */
  datatype Setter =
    | SetOutputFile(file: Option<string>)
    | SetSubsampleFrac(frac: real)
    | SetSubsampleN(n: Value)
    | SetRandomState(state: Option<int>)

  function Apply(s: Settings, c: Setter): (Settings, Outcome)
  {
    match c
    case SetOutputFile(f) => (WithOutputFile(s, f), Pass)
    case SetSubsampleFrac(x) => WithSubsampleFrac(s, x)
    case SetSubsampleN(v) => WithSubsampleN(s, v)
    case SetRandomState(st) => (WithRandomState(s, st), Pass)
  }

  /** Setter calls in order; an exception ends the run with the state as it then is. */
  function ApplyAll(s: Settings, calls: seq<Setter>): (Settings, Outcome)
    decreases |calls|
  {
    if calls == [] then (s, Pass)
    else
      var step := Apply(s, calls[0]);
      if step.1.Fail? then step else ApplyAll(step.0, calls[1..])
  }

  /**
   * Once constructed, an object keeps "not both frac and n" through any run of
   * setters that raises nothing, and every exception a setter raises is either
   * that assertion or the failure of `int()`.
   */
  lemma {:induction false} SettersKeepSubsamplingValid(s: Settings, calls: seq<Setter>)
    requires SubsamplingValid(s)
    ensures ApplyAll(s, calls).1.Pass? ==> SubsamplingValid(ApplyAll(s, calls).0)
    ensures ApplyAll(s, calls).1.Fail? ==>
      ApplyAll(s, calls).1.error in {Error(AssertionError, BothSubsampling), Error(ValueError, NotCoercible)}
      || ApplyAll(s, calls).1.error.kind == TypeError
    decreases |calls|
  {
    if calls != [] {
      var step := Apply(s, calls[0]);
      if step.1.Pass? {
        assert SubsamplingValid(step.0);
        SettersKeepSubsamplingValid(step.0, calls[1..]);
      } else {
        match calls[0]
        case SetSubsampleN(v) =>
          if PyInt(v).Err? && PyInt(v).error.kind != ValueError {
            assert v.OtherValue?;
          }
        case _ =>
      }
    }
  }

  /** `set_subsample_n` accepts the decimal rendering of any integer, with whitespace around it. */
  lemma SubsampleNFromText(s: Settings, k: int, pre: string, post: string)
    requires forall i :: 0 <= i < |pre| ==> pre[i] in Whitespace
    requires forall i :: 0 <= i < |post| ==> post[i] in Whitespace
    ensures WithSubsampleN(s, TextValue(pre + IntToString(k) + post)).0 == s.(subsampleN := Exactly(k))
  {
    ParseIntRoundTrip(k, pre, post);
  }

  /** Text without digits, such as "all" or "wont work", is not coercible. */
  lemma SubsampleNRejectsWords(s: Settings, word: string)
    requires forall i :: 0 <= i < |word| ==> !IsDigit(word[i])
    ensures WithSubsampleN(s, TextValue(word)) == (s, Fail(Error(ValueError, NotCoercible)))
  {
    ParseIntNeedsDigit(word);
  }

  /**
   * The setter sequence of the source's reset test: from the defaults, set the
   * fraction to 0.8 and back to 1, set n to 4 and the random state to 42;
   * setting the fraction to 0.8 again then fails and the 0.8 stays stored.
   */
  lemma ResetVariables(s: Settings)
    requires s.subsampleFrac == 1.0 && s.subsampleN.All?
    ensures ApplyAll(s, [SetSubsampleFrac(0.8), SetSubsampleFrac(1.0), SetSubsampleN(IntValue(4)),
                         SetRandomState(Some(42)), SetSubsampleFrac(0.8)])
      == (s.(subsampleFrac := 0.8, subsampleN := Exactly(4), randomState := Some(42)),
          Fail(Error(AssertionError, BothSubsampling)))
  {
    var calls := [SetSubsampleFrac(0.8), SetSubsampleFrac(1.0), SetSubsampleN(IntValue(4)),
                  SetRandomState(Some(42)), SetSubsampleFrac(0.8)];
    var s1 := s.(subsampleFrac := 0.8);
    var s2 := s.(subsampleFrac := 1.0);
    var s3 := s2.(subsampleN := Exactly(4));
    var s4 := s3.(randomState := Some(42));
    assert ApplyAll(s, calls) == ApplyAll(s1, calls[1..]);
    assert ApplyAll(s1, calls[1..]) == ApplyAll(s2, calls[2..]);
    assert ApplyAll(s2, calls[2..]) == ApplyAll(s3, calls[3..]);
    assert ApplyAll(s3, calls[3..]) == ApplyAll(s4, calls[4..]);
  }

  // ------------------------------------------------------------ constructor

  /** The compartments argument as the linking-column check sees it. */
  function LinkingCompartments(c: Util.CompartmentsArg): (r: LinkingCols.CompartmentsArg)
    ensures r.CompList? <==> c.CompartmentList?
    ensures r.DefaultComps? <==> c == Util.OneCompartment("default")
  {
    match c
    case OneCompartment(name) => if name == "default" then LinkingCols.DefaultComps else LinkingCols.OtherComps
    case CompartmentList(names) => LinkingCols.CompList(names)
    case OtherValue => LinkingCols.OtherComps
  }

  /** The string "default" is not an accepted compartment. */
  lemma DefaultIsNotACompartment()
    ensures Util.CheckCompartments(Util.OneCompartment("default")).Fail?
  {
    var l := Lower("default");
    assert l[0] == 'd';
    assert forall c :: c in Util.ValidCompartments ==> c[0] != 'd';
  }

  /** A single accepted compartment name is never "default", so the linking check rejects it. */
  lemma SingleNameRejected(compartments: Util.CompartmentsArg, links: LinkingCols.LinksArg)
    requires Util.CheckCompartments(compartments).Pass? && !compartments.CompartmentList?
    ensures LinkingCols.LinkingColsComplete(links, LinkingCompartments(compartments)).Fail?
  {
    DefaultIsNotACompartment();
  }

  /**
   * The end of `SingleCells.__init__`: `set_subsample_n` unless `subsample_n`
   * is "all", then `_check_subsampling`.
   */
  function InitialSubsampleN(s: Settings, n: Value): (r: Result<Settings>)
    requires s.subsampleN.All?
    ensures n == TextValue("all") ==> r == Ok(s)
    ensures n != TextValue("all") && PyInt(n).Err? ==> r.Err?
    ensures n != TextValue("all") && PyInt(n).Ok? && s.subsampleFrac != 1.0 ==> r == Err(Error(AssertionError, BothSubsampling))
    ensures r.Ok? ==> SubsamplingValid(r.value) && r.value.(subsampleN := All) == s
    ensures r.Ok? && n != TextValue("all") ==> PyInt(n).Ok? && r.value.subsampleN == Exactly(PyInt(n).value)
  {
    // The closing `_check_subsampling` repeats the check `set_subsample_n`
    // has just passed, and passes whenever `subsample_n` is "all".
    var updated := if n != TextValue("all") then WithSubsampleN(s, n) else (s, Pass);
    if updated.1.Fail? then Err(updated.1.error) else Ok(updated.0)
  }

  /** The linking map the checks and the rename use: "default" stands for the default map. */
  function ResolvedLinks(la: LinkingCols.LinksArg): LinkingCols.Links
    requires !la.OtherLinks?
  {
    if la.DefaultLinks? then LinkingCols.DefaultLinkingCols() else la.links
  }

  /**
   * The checks of `SingleCells.__init__` before `subsample_n` is coerced, in
   * the order the source makes them: compartments, operation, the range of
   * `subsample_frac`, the linking columns; then the fields as stored.
   */
  function Checked(strata: seq<string>, operation: string, outputFile: Option<string>,
                   compartments: Util.CompartmentsArg, links: LinkingCols.LinksArg, mergeCols: seq<string>,
                   frac: real, randomState: Option<int>): (r: Result<Settings>)
    ensures Util.CheckCompartments(compartments).Fail? ==> r == Err(Util.CheckCompartments(compartments).error)
    ensures Util.CheckCompartments(compartments).Pass? && Util.CheckAggregateOperation(operation).Err? ==>
      r == Err(Util.CheckAggregateOperation(operation).error)
    ensures (Util.CheckCompartments(compartments).Pass? && Util.CheckAggregateOperation(operation).Ok?
      && !(0.0 < frac <= 1.0)) ==> r == Err(Error(AssertionError, FracRange))
    ensures r.Ok? ==> 0.0 < frac <= 1.0 && r.value.subsampleFrac == frac && r.value.subsampleN.All?
    ensures r.Ok? ==> compartments.CompartmentList? && r.value.compartments == compartments.names
    ensures r.Ok? ==> LinkingCols.LinkingColsComplete(links, LinkingCompartments(compartments)) == Pass
    ensures r.Ok? ==> r.value.linkingColRename == LinkingCols.RenameMap(LinkingCols.LinkValues(ResolvedLinks(links)))
    ensures r.Ok? ==> r.value.aggregationOperation in Util.AggregateOperations
    ensures r.Ok? ==> !r.value.isAggregated && !r.value.isSubsetComputed
  {
    var checked := Util.CheckCompartments(compartments);
    if checked.Fail? then Err(checked.error)
    else
      var op := Util.CheckAggregateOperation(operation);
      if op.Err? then Err(op.error)
      else if !(0.0 < frac && 1.0 >= frac) then Raise(AssertionError, FracRange)
      else
        LowerIdempotent(operation);
        if !compartments.CompartmentList? then
          SingleNameRejected(compartments, links);
          Err(LinkingCols.LinkingColsComplete(links, LinkingCompartments(compartments)).error)
        else Linked(strata, Lower(op.value), outputFile, compartments.names, links, mergeCols, frac, randomState)
  }

  /** The last check of `Checked`, on the linking columns, and the settings it stores. */
  function Linked(strata: seq<string>, operation: string, outputFile: Option<string>,
                  compartments: seq<string>, links: LinkingCols.LinksArg, mergeCols: seq<string>,
                  frac: real, randomState: Option<int>): (r: Result<Settings>)
    ensures r.Ok? <==> LinkingCols.LinkingColsComplete(links, LinkingCols.CompList(compartments)) == Pass
    ensures r.Ok? ==> !links.OtherLinks?
    ensures r.Ok? ==> r.value == Settings(strata, operation, outputFile, mergeCols, compartments, links,
                                          LinkingCols.RenameMap(LinkingCols.LinkValues(ResolvedLinks(links))),
                                          frac, All, randomState, false, false)
  {
    var linked := LinkingCols.LinkingColsComplete(links, LinkingCols.CompList(compartments));
    if linked.Fail? then Err(linked.error)
    else
      Ok(Settings(strata, operation, outputFile, mergeCols, compartments, links,
                  LinkingCols.RenameMap(LinkingCols.LinkValues(ResolvedLinks(links))), frac, All, randomState,
                  false, false))
  }

  /** `SingleCells.__init__`: the checks, then `subsample_n` unless it is "all". */
  function Construct(strata: seq<string>, operation: string, outputFile: Option<string>,
                     compartments: Util.CompartmentsArg, links: LinkingCols.LinksArg, mergeCols: seq<string>,
                     frac: real, n: Value, randomState: Option<int>): (r: Result<Settings>)
    ensures var c := Checked(strata, operation, outputFile, compartments, links, mergeCols, frac, randomState);
      (c.Err? ==> r == c)
      && (r.Ok? ==> c.Ok? && r.value.(subsampleN := All) == c.value && SubsamplingValid(r.value))
      && (r.Ok? ==> (r.value.subsampleN.All? <==> n == TextValue("all")))
      && (c.Ok? && n != TextValue("all") && PyInt(n).Ok? && frac != 1.0 ==> r == Err(Error(AssertionError, BothSubsampling)))
  {
    var c := Checked(strata, operation, outputFile, compartments, links, mergeCols, frac, randomState);
    if c.Err? then c else InitialSubsampleN(c.value, n)
  }

  /** The class itself: the fields above, set by the constructor and the setters. */
  class SingleCells {
    var strata: seq<string>
    var aggregationOperation: string
    var outputFile: Option<string>
    var mergeCols: seq<string>
    var compartments: seq<string>
    var linkingCols: LinkingCols.LinksArg
    var linkingColRename: map<string, string>
    var subsampleFrac: real
    var subsampleN: SubsampleN
    var subsamplingRandomState: Option<int>
    var isAggregated: bool
    var isSubsetComputed: bool

    function Fields(): Settings
      reads this
    {
      Settings(strata, aggregationOperation, outputFile, mergeCols, compartments, linkingCols, linkingColRename,
               subsampleFrac, subsampleN, subsamplingRandomState, isAggregated, isSubsetComputed)
    }

    constructor (s: Settings)
      ensures Fields() == s
    {
      strata := s.strata;
      aggregationOperation := s.aggregationOperation;
      outputFile := s.outputFile;
      mergeCols := s.mergeCols;
      compartments := s.compartments;
      linkingCols := s.linkingCols;
      linkingColRename := s.linkingColRename;
      subsampleFrac := s.subsampleFrac;
      subsampleN := s.subsampleN;
      subsamplingRandomState := s.randomState;
      isAggregated := s.isAggregated;
      isSubsetComputed := s.isSubsetComputed;
    }

    /** `SingleCells(...)`: an object built from checked arguments, or the first exception. */
    static method Create(strata: seq<string>, operation: string, outputFile: Option<string>,
                         compartments: Util.CompartmentsArg, links: LinkingCols.LinksArg, mergeCols: seq<string>,
                         frac: real, n: Value, randomState: Option<int>) returns (r: Result<SingleCells>)
      ensures var spec := Construct(strata, operation, outputFile, compartments, links, mergeCols, frac, n, randomState);
        (r.Err? <==> spec.Err?) && (r.Err? ==> r.error == spec.error)
        && (r.Ok? ==> fresh(r.value) && r.value.Fields() == spec.value)
    {
      var checked := CheckArguments(strata, operation, outputFile, compartments, links, mergeCols, frac, randomState);
      if checked.Err? {
        return Err(checked.error);
      }
      ghost var spec := InitialSubsampleN(checked.value, n);
      assert Construct(strata, operation, outputFile, compartments, links, mergeCols, frac, n, randomState) == spec;
      var obj := new SingleCells(checked.value);
      if n != TextValue("all") {
        var updated := obj.SetSubsampleN(n);
        assert (obj.Fields(), updated) == WithSubsampleN(checked.value, n);
        if updated.Fail? {
          return Err(updated.error);
        }
      }
      return Ok(obj);
    }

    /** The checks of the constructor, made by the source's own check functions. */
    static method CheckArguments(strata: seq<string>, operation: string, outputFile: Option<string>,
                                 compartments: Util.CompartmentsArg, links: LinkingCols.LinksArg, mergeCols: seq<string>,
                                 frac: real, randomState: Option<int>) returns (r: Result<Settings>)
      ensures r == Checked(strata, operation, outputFile, compartments, links, mergeCols, frac, randomState)
    {
      var checked := Util.CheckCompartments(compartments);
      if checked.Fail? {
        return Err(checked.error);
      }
      var op := Util.CheckAggregateOperation(operation);
      if op.Err? {
        return Err(op.error);
      }
      if !(0.0 < frac && 1.0 >= frac) {
        return Raise(AssertionError, FracRange);
      }
      if !compartments.CompartmentList? {
        var linked := LinkingCols.AssertLinkingColsComplete(links, LinkingCompartments(compartments));
        SingleNameRejected(compartments, links);
        return Err(linked.error);
      }
      r := CheckLinks(strata, Lower(op.value), outputFile, compartments.names, links, mergeCols, frac, randomState);
    }

    /** The linking-column check of the constructor and the rename map it stores. */
    static method CheckLinks(strata: seq<string>, operation: string, outputFile: Option<string>,
                             compartments: seq<string>, links: LinkingCols.LinksArg, mergeCols: seq<string>,
                             frac: real, randomState: Option<int>) returns (r: Result<Settings>)
      ensures r == Linked(strata, operation, outputFile, compartments, links, mergeCols, frac, randomState)
    {
      var linked := LinkingCols.AssertLinkingColsComplete(links, LinkingCols.CompList(compartments));
      if linked.Fail? {
        return Err(linked.error);
      }
      var rename := LinkingCols.ProvideLinkingColsFeatureNameUpdate(links);
      return Ok(Settings(strata, operation, outputFile, mergeCols, compartments, links,
                         rename, frac, All, randomState, false, false));
    }

    /** `_check_subsampling`. */
    method CheckSubsampling() returns (r: Outcome)
      ensures r == SubsamplingCheck(Fields())
    {
      r := Check(subsampleFrac == 1.0 || subsampleN.All?, AssertionError, BothSubsampling);
    }

    method SetOutputFile(file: Option<string>)
      modifies this
      ensures Fields() == WithOutputFile(old(Fields()), file)
    {
      outputFile := file;
    }

    method SetSubsampleFrac(frac: real) returns (r: Outcome)
      modifies this
      ensures (Fields(), r) == WithSubsampleFrac(old(Fields()), frac)
    {
      subsampleFrac := frac;
      r := CheckSubsampling();
    }

    method SetSubsampleN(v: Value) returns (r: Outcome)
      modifies this
      ensures (Fields(), r) == WithSubsampleN(old(Fields()), v)
    {
      var n := PyInt(v);
      if n.Err? {
        if n.error.kind == ValueError {
          return Fail(Error(ValueError, NotCoercible));
        }
        return Fail(n.error);
      }
      subsampleN := Exactly(n.value);
      r := CheckSubsampling();
    }

    method SetSubsampleRandomState(state: Option<int>)
      modifies this
      ensures Fields() == WithRandomState(old(Fields()), state)
    {
      subsamplingRandomState := state;
    }

    /** `split_column_categories`: one pass, each name appended to one of two lists. */
    method SplitColumnCategories(colNames: seq<string>) returns (meta: seq<string>, feat: seq<string>)
      ensures meta == Filter(colNames, IsMetadataName(compartments))
      ensures feat == Filter(colNames, IsFeatureName(compartments))
    {
      meta, feat := [], [];
      for i := 0 to |colNames|
        invariant meta == Filter(colNames[..i], IsMetadataName(compartments))
        invariant feat == Filter(colNames[..i], IsFeatureName(compartments))
      {
        var col := colNames[i];
        SplitStep(compartments, colNames, i);
        if FeatureName(compartments, col) {
          feat := feat + [col];
        } else {
          meta := meta + [col];
        }
      }
      assert colNames[..|colNames|] == colNames;
    }
  }

  // ---------------------------------------------------------- column split

  /** `col.lower().startswith(tuple(compartments))`. */
  predicate FeatureName(compartments: seq<string>, col: string)
  {
    exists c :: c in compartments && StartsWith(Lower(col), c)
  }

  function IsFeatureName(compartments: seq<string>): string -> bool
  {
    (col: string) => FeatureName(compartments, col)
  }

  function IsMetadataName(compartments: seq<string>): string -> bool
  {
    (col: string) => !FeatureName(compartments, col)
  }

  lemma SplitStep(compartments: seq<string>, cols: seq<string>, i: nat)
    requires i < |cols|
    ensures Filter(cols[..i + 1], IsMetadataName(compartments))
      == Filter(cols[..i], IsMetadataName(compartments)) + (if FeatureName(compartments, cols[i]) then [] else [cols[i]])
    ensures Filter(cols[..i + 1], IsFeatureName(compartments))
      == Filter(cols[..i], IsFeatureName(compartments)) + (if FeatureName(compartments, cols[i]) then [cols[i]] else [])
  {
    assert cols[..i + 1] == cols[..i] + [cols[i]];
    FilterConcat(cols[..i], [cols[i]], IsMetadataName(compartments));
    FilterConcat(cols[..i], [cols[i]], IsFeatureName(compartments));
  }

  /** The two lists partition the names: together they hold each name exactly as often as the input. */
  lemma {:induction false} SplitPartitions(compartments: seq<string>, cols: seq<string>)
    ensures multiset(Filter(cols, IsMetadataName(compartments))) + multiset(Filter(cols, IsFeatureName(compartments)))
      == multiset(cols)
  {
    if cols != [] {
      SplitPartitions(compartments, cols[1..]);
      assert cols == [cols[0]] + cols[1..];
    }
  }

  /** Each list keeps the input order. */
  lemma SplitKeepsOrder(compartments: seq<string>, cols: seq<string>)
    ensures Subseq(Filter(cols, IsMetadataName(compartments)), cols)
    ensures Subseq(Filter(cols, IsFeatureName(compartments)), cols)
  {
    FilterSubseq(cols, IsMetadataName(compartments));
    FilterSubseq(cols, IsFeatureName(compartments));
  }

  /** Letter case of a column name never changes its category. */
  lemma SplitIgnoresCase(compartments: seq<string>, col: string)
    ensures FeatureName(compartments, Lower(col)) <==> FeatureName(compartments, col)
  {
    LowerIdempotent(col);
  }

  // ------------------------------------------------------------ strata guard

  /** The guard at the start of the strata generator. */
  function StrataGuard(nStrata: int): (r: Outcome)
    ensures r.Pass? <==> nStrata > 0
    ensures r.Fail? ==> r.error == Error(AssertionError, StrataMemory)
  {
    Check(nStrata > 0, AssertionError, StrataMemory)
  }

  // ------------------------------------------------------------- merge plan

  /** One merge: `left` joined to `right` on `leftOn` = `rightOn`. */
  datatype MergeStep = MergeStep(left: string, right: string, leftOn: string, rightOn: string)

  /** The merges made so far, their pair keys (`linking_check_cols`) and `merge_suffix_rename`. */
  datatype MergePlan = MergePlan(steps: seq<MergeStep>, checks: seq<string>, suffixes: seq<string>)

  /** `links[k]`, first matching entry. */
  function Lookup(links: LinkingCols.Links, k: string): (r: Option<LinkingCols.Inner>)
    ensures r.None? <==> k !in LinkingCols.OuterKeys(links)
    ensures r.Some? ==> (k, r.value) in links
  {
    if links == [] then None
    else if links[0].0 == k then Some(links[0].1)
    else
      assert LinkingCols.OuterKeys(links) == [links[0].0] + LinkingCols.OuterKeys(links[1..]);
      Lookup(links[1..], k)
  }

  /** `inner[k]`, first matching entry. */
  function LookupColumn(inner: LinkingCols.Inner, k: string): (r: Option<string>)
    ensures r.None? <==> k !in LinkingCols.InnerKeys(inner)
    ensures r.Some? ==> (k, r.value) in inner
  {
    if inner == [] then None
    else if inner[0].0 == k then Some(inner[0].1)
    else
      assert LinkingCols.InnerKeys(inner) == [inner[0].0] + LinkingCols.InnerKeys(inner[1..]);
      LookupColumn(inner[1..], k)
  }

  /** `links[right][left]`, or the KeyError Python raises. */
  function ReverseLink(links: LinkingCols.Links, left: string, right: string): (r: Result<string>)
    ensures r.Ok? <==> right in LinkingCols.OuterKeys(links) && left in LinkingCols.InnerKeys(Lookup(links, right).value)
    ensures r.Ok? ==> (left, r.value) in Lookup(links, right).value
    ensures r.Err? ==> r.error.kind == KeyError
  {
    match Lookup(links, right)
    case None => Raise(KeyError, "'" + right + "'")
    case Some(inner) =>
      match LookupColumn(inner, left)
      case None => Raise(KeyError, "'" + left + "'")
      case Some(c) => Ok(c)
  }

  function Suffixes(steps: seq<MergeStep>): seq<string>
  {
    if steps == [] then []
    else Suffixes(steps[..|steps| - 1]) + ["_" + steps[|steps| - 1].left, "_" + steps[|steps| - 1].right]
  }

  /** The body of the inner loop for the link `left -> (right, column)`. */
  function MergeAt(links: LinkingCols.Links, acc: Result<MergePlan>, left: string, link: (string, string)): Result<MergePlan>
  {
    if acc.Err? then acc
    else
      var p := acc.value;
      var right := link.0;
      var key := LinkingCols.PairKey(left, right);
      if key in p.checks then acc
      else
        var rightOn := ReverseLink(links, left, right);
        if rightOn.Err? then Err(rightOn.error)
        else Ok(MergePlan(p.steps + [MergeStep(left, right, link.1, rightOn.value)],
                          p.checks + [key], p.suffixes + ["_" + left, "_" + right]))
  }

  /** The inner loop over `links[left]`. */
  function MergeEntry(links: LinkingCols.Links, acc: Result<MergePlan>, left: string, inner: LinkingCols.Inner): Result<MergePlan>
  {
    if inner == [] then acc
    else MergeAt(links, MergeEntry(links, acc, left, inner[..|inner| - 1]), left, inner[|inner| - 1])
  }

  /** The outer loop over the entries `es` of `links`. */
  function MergeEntries(links: LinkingCols.Links, es: LinkingCols.Links): Result<MergePlan>
  {
    if es == [] then Ok(MergePlan([], [], []))
    else MergeEntry(links, MergeEntries(links, es[..|es| - 1]), es[|es| - 1].0, es[|es| - 1].1)
  }

  /**
   * The merges `merge_single_cells` makes. The map is the dictionary the
   * constructor stored; "default" is stored as the string itself, and
   * indexing a string with a compartment name raises TypeError.
   */
  function PlanMerges(la: LinkingCols.LinksArg): Result<MergePlan>
    requires !la.OtherLinks?
  {
    if la.DefaultLinks? then Raise(TypeError, "string indices must be integers, not 'str'")
    else MergeEntries(la.links, la.links)
  }

  lemma {:induction false} EntryAbsorbs(links: LinkingCols.Links, e: Error, left: string, inner: LinkingCols.Inner)
    ensures MergeEntry(links, Err(e), left, inner) == Err(e)
    decreases |inner|
  {
    if inner != [] {
      EntryAbsorbs(links, e, left, inner[..|inner| - 1]);
    }
  }

  lemma {:induction false} EntryFailsFrom(links: LinkingCols.Links, acc: Result<MergePlan>, left: string,
                                          inner: LinkingCols.Inner, j: nat)
    requires j < |inner| && MergeEntry(links, acc, left, inner[..j + 1]).Err?
    ensures MergeEntry(links, acc, left, inner) == MergeEntry(links, acc, left, inner[..j + 1])
    decreases |inner|
  {
    if j + 1 < |inner| {
      var init := inner[..|inner| - 1];
      assert init[..j + 1] == inner[..j + 1];
      EntryFailsFrom(links, acc, left, init, j);
    } else {
      assert inner[..j + 1] == inner;
    }
  }

  lemma {:induction false} EntriesFailFrom(links: LinkingCols.Links, es: LinkingCols.Links, i: nat)
    requires i < |es| && MergeEntries(links, es[..i + 1]).Err?
    ensures MergeEntries(links, es) == MergeEntries(links, es[..i + 1])
    decreases |es|
  {
    if i + 1 < |es| {
      var init := es[..|es| - 1];
      assert init[..i + 1] == es[..i + 1];
      EntriesFailFrom(links, init, i);
      EntryAbsorbs(links, MergeEntries(links, init).error, es[|es| - 1].0, es[|es| - 1].1);
    } else {
      assert es[..i + 1] == es;
    }
  }

  /** The inner loop of `merge_single_cells` over `links[left]`, from the plan so far. */
  method MergeEntryLoop(links: LinkingCols.Links, plan: MergePlan, left: string, inner: LinkingCols.Inner)
    returns (r: Result<MergePlan>)
    ensures r == MergeEntry(links, Ok(plan), left, inner)
  {
    var steps, checks, suffixes := plan.steps, plan.checks, plan.suffixes;
    var j := 0;
    while j < |inner|
      invariant 0 <= j <= |inner|
      invariant MergeEntry(links, Ok(plan), left, inner[..j]) == Ok(MergePlan(steps, checks, suffixes))
    {
      var right := inner[j].0;
      var key := LinkingCols.PairKey(left, right);
      assert inner[..j + 1][..j] == inner[..j];
      if key in checks {
        j := j + 1;
        continue;
      }
      var suffix := ["_" + left, "_" + right];
      var rightOn := ReverseLink(links, left, right);
      if rightOn.Err? {
        EntryFailsFrom(links, Ok(plan), left, inner, j);
        return Err(rightOn.error);
      }
      suffixes := suffixes + suffix;
      steps := steps + [MergeStep(left, right, inner[j].1, rightOn.value)];
      checks := checks + [key];
      j := j + 1;
    }
    assert inner[..j] == inner;
    r := Ok(MergePlan(steps, checks, suffixes));
  }

  /** The nested loop of `merge_single_cells`, with the SQL loads and the merges themselves left out. */
  method MergeSingleCellsPlan(la: LinkingCols.LinksArg) returns (r: Result<MergePlan>)
    requires !la.OtherLinks?
    ensures r == PlanMerges(la)
  {
    if la.DefaultLinks? {
      return Raise(TypeError, "string indices must be integers, not 'str'");
    }
    var links := la.links;
    var plan := MergePlan([], [], []);
    var i := 0;
    while i < |links|
      invariant 0 <= i <= |links|
      invariant MergeEntries(links, links[..i]) == Ok(plan)
    {
      assert links[..i + 1][..i] == links[..i];
      var next := MergeEntryLoop(links, plan, links[i].0, links[i].1);
      if next.Err? {
        EntriesFailFrom(links, links, i);
        return next;
      }
      plan := next.value;
      i := i + 1;
    }
    assert links[..i] == links;
    r := Ok(plan);
  }

  /**
   * What a plan records: one distinct pair key per merge, each merge's right
   * column read from `links[right][left]`, and two suffixes per merge.
   */
  predicate WellPlanned(links: LinkingCols.Links, p: MergePlan)
  {
    |p.checks| == |p.steps|
    && NoDup(p.checks)
    && (forall k :: 0 <= k < |p.steps| ==> p.checks[k] == LinkingCols.PairKey(p.steps[k].left, p.steps[k].right))
    && (forall k :: 0 <= k < |p.steps| ==> ReverseLink(links, p.steps[k].left, p.steps[k].right) == Ok(p.steps[k].rightOn))
    && p.suffixes == Suffixes(p.steps)
  }

  lemma MergeAtKeepsPlanned(links: LinkingCols.Links, acc: Result<MergePlan>, left: string, link: (string, string))
    requires acc.Ok? && WellPlanned(links, acc.value)
    requires MergeAt(links, acc, left, link).Ok?
    ensures WellPlanned(links, MergeAt(links, acc, left, link).value)
  {
    var p := acc.value;
    var key := LinkingCols.PairKey(left, link.0);
    if key !in p.checks {
      var q := MergeAt(links, acc, left, link).value;
      var step := MergeStep(left, link.0, link.1, ReverseLink(links, left, link.0).value);
      assert q.steps == p.steps + [step];
      assert q.steps[..|q.steps| - 1] == p.steps;
    }
  }

  lemma MergeAtGrows(links: LinkingCols.Links, acc: Result<MergePlan>, left: string, link: (string, string))
    requires MergeAt(links, acc, left, link).Ok?
    ensures acc.Ok?
    ensures forall c :: c in acc.value.checks ==> c in MergeAt(links, acc, left, link).value.checks
    ensures LinkingCols.PairKey(left, link.0) in MergeAt(links, acc, left, link).value.checks
  {
  }

  lemma {:induction false} MergeEntryKeepsPlanned(links: LinkingCols.Links, acc: Result<MergePlan>, left: string,
                                                  inner: LinkingCols.Inner)
    requires acc.Ok? && WellPlanned(links, acc.value)
    requires MergeEntry(links, acc, left, inner).Ok?
    ensures WellPlanned(links, MergeEntry(links, acc, left, inner).value)
    decreases |inner|
  {
    if inner != [] {
      var init := inner[..|inner| - 1];
      var last := inner[|inner| - 1];
      var mid := MergeEntry(links, acc, left, init);
      assert MergeEntry(links, acc, left, inner) == MergeAt(links, mid, left, last);
      MergeAtGrows(links, mid, left, last);
      MergeEntryKeepsPlanned(links, acc, left, init);
      MergeAtKeepsPlanned(links, mid, left, last);
    }
  }

  lemma {:induction false} MergeEntryGrows(links: LinkingCols.Links, acc: Result<MergePlan>, left: string,
                                           inner: LinkingCols.Inner)
    requires MergeEntry(links, acc, left, inner).Ok?
    ensures acc.Ok?
    ensures forall c :: c in acc.value.checks ==> c in MergeEntry(links, acc, left, inner).value.checks
    ensures forall j :: 0 <= j < |inner| ==> LinkingCols.PairKey(left, inner[j].0) in MergeEntry(links, acc, left, inner).value.checks
    decreases |inner|
  {
    if inner != [] {
      var init := inner[..|inner| - 1];
      var last := inner[|inner| - 1];
      var mid := MergeEntry(links, acc, left, init);
      assert MergeEntry(links, acc, left, inner) == MergeAt(links, mid, left, last);
      MergeAtGrows(links, mid, left, last);
      MergeEntryGrows(links, acc, left, init);
      var before := mid.value.checks;
      var after := MergeAt(links, mid, left, last).value.checks;
      assert forall c :: c in before ==> c in after;
      forall j | 0 <= j < |inner|
        ensures LinkingCols.PairKey(left, inner[j].0) in after
      {
        if j < |init| {
          assert inner[j] == init[j];
          assert LinkingCols.PairKey(left, init[j].0) in before;
        } else {
          assert inner[j] == last;
        }
      }
    }
  }

  lemma {:induction false} PlanWellPlanned(links: LinkingCols.Links, es: LinkingCols.Links)
    requires MergeEntries(links, es).Ok?
    ensures WellPlanned(links, MergeEntries(links, es).value)
    decreases |es|
  {
    if es != [] {
      var init := es[..|es| - 1];
      var e := es[|es| - 1];
      var mid := MergeEntries(links, init);
      MergeEntryGrows(links, mid, e.0, e.1);
      PlanWellPlanned(links, init);
      MergeEntryKeepsPlanned(links, mid, e.0, e.1);
    }
  }

  lemma {:induction false} PlanCoversEveryLink(links: LinkingCols.Links, es: LinkingCols.Links)
    requires MergeEntries(links, es).Ok?
    ensures forall q :: q in LinkingCols.LinkPairs(es) ==> LinkingCols.PairKey(q.0, q.1) in MergeEntries(links, es).value.checks
    decreases |es|
  {
    if es != [] {
      var init := es[..|es| - 1];
      var e := es[|es| - 1];
      var mid := MergeEntries(links, init);
      MergeEntryGrows(links, mid, e.0, e.1);
      PlanCoversEveryLink(links, init);
      var res := MergeEntries(links, es).value;
      assert es == init + [e];
      LinkingCols.SnocPairs(init, e);
      forall q | q in LinkingCols.LinkPairs(es)
        ensures LinkingCols.PairKey(q.0, q.1) in res.checks
      {
        if q in LinkingCols.LinkPairs(init) {
          assert LinkingCols.PairKey(q.0, q.1) in mid.value.checks;
        } else {
          var j :| 0 <= j < |LinkingCols.EntryPairs(e)| && LinkingCols.EntryPairs(e)[j] == q;
          assert q == (e.0, e.1[j].0);
        }
      }
    }
  }

  /**
   * A successful plan merges each unordered compartment pair at most once,
   * reads each merge's right column from `links[right][left]`, and has every
   * link of the map merged.
   */
  lemma PlanMergesEachPairOnce(links: LinkingCols.Links)
    requires PlanMerges(LinkingCols.LinkDict(links)).Ok?
    ensures var p := PlanMerges(LinkingCols.LinkDict(links)).value;
      WellPlanned(links, p)
      && forall q :: q in LinkingCols.LinkPairs(links) ==> LinkingCols.PairKey(q.0, q.1) in p.checks
  {
    PlanWellPlanned(links, links);
    PlanCoversEveryLink(links, links);
  }

  // ------------------------------------------------------------- rename map

  /** The names `c + x` for each suffix `x`. */
  function Suffixed(c: string, suffixes: seq<string>): (r: seq<string>)
    ensures |r| == |suffixes| && forall j :: 0 <= j < |suffixes| ==> r[j] == c + suffixes[j]
  {
    seq(|suffixes|, j requires 0 <= j < |suffixes| => c + suffixes[j])
  }

  /** Every column with every suffix, column by column. */
  function SuffixedNames(cols: seq<string>, suffixes: seq<string>): seq<string>
  {
    if cols == [] then [] else SuffixedNames(cols[..|cols| - 1], suffixes) + Suffixed(cols[|cols| - 1], suffixes)
  }

  /** Parallel lists of original names and `Metadata_` names. */
  predicate Prefixed(original: seq<string>, renamed: seq<string>)
  {
    |renamed| == |original| && forall t :: 0 <= t < |original| ==> renamed[t] == "Metadata_" + original[t]
  }

  /**
   * `full_merge_suffix_rename`: each column of `cols` (the merge columns,
   * then the renamed linking columns), bare and then with each merge suffix,
   * gets the name `Metadata_` + itself.
   */
  method FullMergeSuffixRename(cols: seq<string>, suffixes: seq<string>) returns (rename: map<string, string>)
    ensures rename == LinkingCols.RenameMap(cols + SuffixedNames(cols, suffixes))
  {
    var original, renamed := BareNames(cols);
    for i := 0 to |cols|
      invariant original == cols + SuffixedNames(cols[..i], suffixes) && Prefixed(original, renamed)
    {
      SuffixedNamesStep(cols, suffixes, i);
      original, renamed := AppendSuffixed(original, renamed, cols[i], suffixes);
    }
    assert cols[..|cols|] == cols;
    rename := ZipRename(original, renamed);
  }

  lemma SuffixedNamesStep(cols: seq<string>, suffixes: seq<string>, i: nat)
    requires i < |cols|
    ensures SuffixedNames(cols[..i + 1], suffixes) == SuffixedNames(cols[..i], suffixes) + Suffixed(cols[i], suffixes)
  {
    assert cols[..i + 1][..i] == cols[..i];
  }

  /** The first loop: every column, bare. */
  method BareNames(cols: seq<string>) returns (original: seq<string>, renamed: seq<string>)
    ensures original == cols && Prefixed(original, renamed)
  {
    original, renamed := [], [];
    for i := 0 to |cols|
      invariant original == cols[..i] && Prefixed(original, renamed)
    {
      assert cols[..i + 1] == cols[..i] + [cols[i]];
      original := original + [cols[i]];
      renamed := renamed + ["Metadata_" + cols[i]];
    }
    assert cols[..|cols|] == cols;
  }

  /** The inner loop: `col` with each suffix, appended to both lists. */
  method AppendSuffixed(original0: seq<string>, renamed0: seq<string>, col: string, suffixes: seq<string>)
    returns (original: seq<string>, renamed: seq<string>)
    requires Prefixed(original0, renamed0)
    ensures original == original0 + Suffixed(col, suffixes) && Prefixed(original, renamed)
  {
    original, renamed := original0, renamed0;
    for j := 0 to |suffixes|
      invariant original == original0 + Suffixed(col, suffixes[..j]) && Prefixed(original, renamed)
    {
      assert Suffixed(col, suffixes[..j + 1]) == Suffixed(col, suffixes[..j]) + [col + suffixes[j]];
      original := original + [col + suffixes[j]];
      renamed := renamed + ["Metadata_" + col + suffixes[j]];
      assert "Metadata_" + col + suffixes[j] == "Metadata_" + (col + suffixes[j]);
    }
    assert suffixes[..|suffixes|] == suffixes;
  }

  /** `dict(zip(original, renamed))`. */
  method ZipRename(original: seq<string>, renamed: seq<string>) returns (rename: map<string, string>)
    requires Prefixed(original, renamed)
    ensures rename == LinkingCols.RenameMap(original)
  {
    rename := map[];
    for t := 0 to |original|
      invariant rename == LinkingCols.RenameMap(original[..t])
    {
      assert original[..t + 1] == original[..t] + [original[t]];
      rename := rename[original[t] := renamed[t]];
    }
    assert original[..|original|] == original;
  }

  lemma {:induction false} SuffixedNamesMember(cols: seq<string>, suffixes: seq<string>, k: string)
    ensures k in SuffixedNames(cols, suffixes) <==> exists i, j :: 0 <= i < |cols| && 0 <= j < |suffixes| && k == cols[i] + suffixes[j]
    decreases |cols|
  {
    if cols != [] {
      var init := cols[..|cols| - 1];
      SuffixedNamesMember(init, suffixes, k);
      if exists i, j :: 0 <= i < |cols| && 0 <= j < |suffixes| && k == cols[i] + suffixes[j] {
        var i, j :| 0 <= i < |cols| && 0 <= j < |suffixes| && k == cols[i] + suffixes[j];
        if i < |init| {
          assert k == init[i] + suffixes[j];
        } else {
          assert k == Suffixed(cols[|cols| - 1], suffixes)[j];
        }
      }
      if k in SuffixedNames(init, suffixes) {
        var i, j :| 0 <= i < |init| && 0 <= j < |suffixes| && k == init[i] + suffixes[j];
        assert k == cols[i] + suffixes[j];
      }
    }
  }

  /**
   * The rename map holds exactly the bare columns and the suffixed ones, and
   * sends each to `Metadata_` + its name.
   */
  lemma RenameMapCovers(cols: seq<string>, suffixes: seq<string>, k: string)
    ensures var m := LinkingCols.RenameMap(cols + SuffixedNames(cols, suffixes));
      (k in m <==> k in cols || exists i, j :: 0 <= i < |cols| && 0 <= j < |suffixes| && k == cols[i] + suffixes[j])
      && (k in m ==> m[k] == "Metadata_" + k)
  {
    SuffixedNamesMember(cols, suffixes, k);
  }

  // -------------------------------------------------------- strata conditions

  /** A data frame whose cells are lists of values, each value as `str()` shows it. */
  datatype ListFrame = ListFrame(columns: seq<string>, rows: seq<seq<seq<string>>>)

  predicate Rectangular(df: ListFrame)
  {
    forall i :: 0 <= i < |df.rows| ==> |df.rows[i]| == |df.columns|
  }

  /** Text-typed values are put in single quotes. */
  function Quoted(vals: seq<string>, text: bool): (r: seq<string>)
    ensures |r| == |vals| && forall k :: 0 <= k < |vals| ==> r[k] == (if text then "'" + vals[k] + "'" else vals[k])
  {
    seq(|vals|, k requires 0 <= k < |vals| => if text then "'" + vals[k] + "'" else vals[k])
  }

  /** `x in (v1, v2, ...)`; a single value is written alone. */
  function Membership(column: string, vals: seq<string>): string
    requires vals != []
  {
    column + " in (" + (if |vals| > 1 then Join(vals, ", ") else vals[0]) + ")"
  }

  function Typed(dtypes: map<string, string>): string -> bool
  {
    (x: string) => x in dtypes
  }

  /**
   * The condition for one row: every column's type is looked up first
   * (KeyError), then each column's values are rendered (IndexError for an
   * empty list).
   */
  function RowCondition(columns: seq<string>, row: seq<seq<string>>, dtypes: map<string, string>): (r: Result<string>)
    requires |row| == |columns|
    ensures r.Err? <==> (exists k :: 0 <= k < |columns| && columns[k] !in dtypes) || (exists k :: 0 <= k < |row| && row[k] == [])
    ensures (exists k :: 0 <= k < |columns| && columns[k] !in dtypes) ==> r.Err? && r.error.kind == KeyError
  {
    var missing := LinkingCols.FirstFailing(columns, Typed(dtypes));
    if missing.Some? then Raise(KeyError, "'" + missing.value + "'")
    else
      var values := seq(|columns|, k requires 0 <= k < |columns| => Quoted(row[k], dtypes[columns[k]] == "text"));
      if exists k :: 0 <= k < |columns| && values[k] == [] then Raise(IndexError, "list index out of range")
      else
        var parts := seq(|columns|, k requires 0 <= k < |columns| => Membership(columns[k], values[k]));
        Ok("(" + Join(parts, " and ") + ")")
  }

  /** The conditions of the rows in order, or the first row's exception. */
  function RowConditions(columns: seq<string>, rows: seq<seq<seq<string>>>, dtypes: map<string, string>): (r: Result<seq<string>>)
    requires forall i :: 0 <= i < |rows| ==> |rows[i]| == |columns|
    ensures r.Ok? <==> forall i :: 0 <= i < |rows| ==> RowCondition(columns, rows[i], dtypes).Ok?
    ensures r.Ok? ==> |r.value| == |rows| && forall i :: 0 <= i < |rows| ==> r.value[i] == RowCondition(columns, rows[i], dtypes).value
  {
    if rows == [] then Ok([])
    else
      var init := rows[..|rows| - 1];
      var prev := RowConditions(columns, init, dtypes);
      var last := RowCondition(columns, rows[|rows| - 1], dtypes);
      assert forall i :: 0 <= i < |init| ==> init[i] == rows[i];
      if prev.Err? then prev
      else if last.Err? then Err(last.error)
      else Ok(prev.value + [last.value])
  }

  /** `" or ".join` of consecutive groups of `n` conditions. */
  function Grouped(conditions: seq<string>, n: nat): (r: seq<string>)
    requires n > 0
    ensures |r| == |Chunks(conditions, n)|
  {
    var groups := Chunks(conditions, n);
    seq(|groups|, i requires 0 <= i < |groups| => Join(groups[i], " or "))
  }

  /** `_sqlite_strata_conditions(df, dtypes, n)`. */
  function StrataConditions(df: ListFrame, dtypes: map<string, string>, n: int): (r: Result<seq<string>>)
    requires Rectangular(df)
    ensures RowConditions(df.columns, df.rows, dtypes).Err? ==> r == RowConditions(df.columns, df.rows, dtypes)
    ensures RowConditions(df.columns, df.rows, dtypes).Ok? && n == 0 ==> r.Err? && r.error.kind == ValueError
    ensures RowConditions(df.columns, df.rows, dtypes).Ok? && n < 0 ==> r == Ok([])
  {
    var conditions := RowConditions(df.columns, df.rows, dtypes);
    if conditions.Err? then conditions
    else if n == 0 then Raise(ValueError, "range() arg 3 must not be zero")
    else if n < 0 then Ok([])
    else Ok(Grouped(conditions.value, n))
  }

  lemma {:induction false} RowConditionsFailFrom(columns: seq<string>, rows: seq<seq<seq<string>>>,
                                                 dtypes: map<string, string>, i: nat)
    requires forall k :: 0 <= k < |rows| ==> |rows[k]| == |columns|
    requires i < |rows| && RowConditions(columns, rows[..i + 1], dtypes).Err?
    ensures RowConditions(columns, rows, dtypes) == RowConditions(columns, rows[..i + 1], dtypes)
    decreases |rows|
  {
    if i + 1 < |rows| {
      var init := rows[..|rows| - 1];
      assert init[..i + 1] == rows[..i + 1];
      RowConditionsFailFrom(columns, init, dtypes, i);
    } else {
      assert rows[..i + 1] == rows;
    }
  }

  /** The loop over `df.iterrows()`, stopping at the first row that raises. */
  method RowConditionsLoop(columns: seq<string>, rows: seq<seq<seq<string>>>, dtypes: map<string, string>)
    returns (r: Result<seq<string>>)
    requires forall k :: 0 <= k < |rows| ==> |rows[k]| == |columns|
    ensures r == RowConditions(columns, rows, dtypes)
  {
    var conditions: seq<string> := [];
    var i := 0;
    while i < |rows|
      invariant 0 <= i <= |rows|
      invariant RowConditions(columns, rows[..i], dtypes) == Ok(conditions)
    {
      var c := RowCondition(columns, rows[i], dtypes);
      assert rows[..i + 1][..i] == rows[..i];
      if c.Err? {
        RowConditionsFailFrom(columns, rows, dtypes, i);
        return Err(c.error);
      }
      conditions := conditions + [c.value];
      i := i + 1;
    }
    assert rows[..i] == rows;
    r := Ok(conditions);
  }

  /** `_sqlite_strata_conditions`: the row loop, then the grouping comprehension. */
  method SqliteStrataConditions(df: ListFrame, dtypes: map<string, string>, n: int) returns (r: Result<seq<string>>)
    requires Rectangular(df)
    ensures r == StrataConditions(df, dtypes, n)
  {
    var conditions := RowConditionsLoop(df.columns, df.rows, dtypes);
    if conditions.Err? {
      return conditions;
    }
    if n == 0 {
      return Raise(ValueError, "range() arg 3 must not be zero");
    }
    if n < 0 {
      return Ok([]);
    }
    r := Ok(Grouped(conditions.value, n));
  }

  /**
   * With `n > 0` there are `ceil(rows / n)` strings, and string `i` joins
   * the conditions of rows `i * n` up to `(i + 1) * n` with " or ".
   */
  lemma StrataGroups(df: ListFrame, dtypes: map<string, string>, n: int, i: nat)
    requires Rectangular(df) && n > 0 && StrataConditions(df, dtypes, n).Ok?
    ensures var r := StrataConditions(df, dtypes, n).value;
      (|r| - 1) * n < |df.rows| <= |r| * n
    ensures var r := StrataConditions(df, dtypes, n).value; var c := RowConditions(df.columns, df.rows, dtypes).value;
      i < |r| ==> i * n < |c| && r[i] == Join(c[i * n..Clip((i + 1) * n, |c|)], " or ")
  {
    var c := RowConditions(df.columns, df.rows, dtypes).value;
    ChunksCount(c, n);
    if i < |Chunks(c, n)| {
      ChunkAt(c, n, i);
    }
  }

  /** With `n == 1` each row's condition is a string of its own. */
  lemma {:induction false} GroupedByOne(conditions: seq<string>)
    ensures Grouped(conditions, 1) == conditions
    decreases |conditions|
  {
    if conditions != [] {
      var rest := conditions[1..];
      GroupedByOne(rest);
      var groups := Chunks(conditions, 1);
      if |conditions| == 1 {
        assert groups == [conditions];
      } else {
        assert groups == [conditions[..1]] + Chunks(rest, 1);
        assert forall i :: 1 <= i < |groups| ==> groups[i] == Chunks(rest, 1)[i - 1];
      }
      assert Join(groups[0], " or ") == conditions[0];
    }
  }

  /** The rendering of a row with a one-value column and a three-value column, as in the source's example. */
  lemma TwoColumnRow(a: string, b: string, x: string, y1: string, y2: string, y3: string, dtypes: map<string, string>)
    requires a in dtypes && b in dtypes && dtypes[a] != "text" && dtypes[b] != "text"
    ensures var first := a + " in (" + x + ")";
      var second := b + " in (" + (y1 + ", " + y2 + ", " + y3) + ")";
      RowCondition([a, b], [[x], [y1, y2, y3]], dtypes) == Ok("(" + first + " and " + second + ")")
  {
    var columns := [a, b];
    var row := [[x], [y1, y2, y3]];
    assert LinkingCols.FirstFailing(columns, Typed(dtypes)) == None;
    var values := seq(|columns|, k requires 0 <= k < |columns| => Quoted(row[k], dtypes[columns[k]] == "text"));
    assert values[0] == [x];
    assert values[1] == [y1, y2, y3];
    assert forall k :: 0 <= k < |columns| ==> values[k] != [];
    var ys := [y1, y2, y3];
    assert ys[1..] == [y2, y3];
    assert [y2, y3][1..] == [y3];
    assert Join([y3], ", ") == y3;
    assert Join([y2, y3], ", ") == y2 + ", " + y3;
    assert Join(ys, ", ") == y1 + ", " + (y2 + ", " + y3);
    assert y1 + ", " + (y2 + ", " + y3) == y1 + ", " + y2 + ", " + y3;
    var parts := seq(|columns|, k requires 0 <= k < |columns| => Membership(columns[k], values[k]));
    assert parts[1..] == [parts[1]];
    assert Join(parts, " and ") == parts[0] + " and " + parts[1];
    assert RowCondition(columns, row, dtypes).value == "(" + Join(parts, " and ") + ")";
    assert "(" + (parts[0] + " and " + parts[1]) + ")" == "(" + parts[0] + " and " + parts[1] + ")";
  }

  /** Text-typed values are quoted and a single one is written bare: `x in ('v')`. */
  lemma TextValueQuoted(a: string, v: string, dtypes: map<string, string>)
    requires a in dtypes && dtypes[a] == "text"
    ensures RowCondition([a], [[v]], dtypes) == Ok("(" + a + " in ('" + v + "'))")
  {
    var columns := [a];
    var row := [[v]];
    assert LinkingCols.FirstFailing(columns, Typed(dtypes)) == None;
    var values := seq(|columns|, k requires 0 <= k < |columns| => Quoted(row[k], dtypes[columns[k]] == "text"));
    assert values[0] == ["'" + v + "'"];
    var parts := seq(|columns|, k requires 0 <= k < |columns| => Membership(columns[k], values[k]));
    assert parts[0] == a + " in (" + ("'" + v + "'") + ")";
    assert Join(parts, " and ") == parts[0];
    assert RowCondition(columns, row, dtypes) == Ok("(" + parts[0] + ")");
    assert "(" + parts[0] + ")" == "(" + a + " in ('" + v + "'))";
  }
}
