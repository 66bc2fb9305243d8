/**
 * Argument checks and small loaders shared by the operations
 * (cyto_utils/util.py).
 */
module Util {
  import opened Seqs
  import opened Strings
  import opened Wrappers

  const ValidCompartments: seq<string> := ["cells", "cytoplasm", "nuclei"]
  const CompartmentError: string := "compartment not supported, use one of ['cells', 'cytoplasm', 'nuclei']"

  /** A `compartments` argument: a string, a list of strings, or anything else. */
  datatype CompartmentsArg = OneCompartment(name: string) | CompartmentList(names: seq<string>) | OtherValue

  /** `check_compartments`: lists and strings are compared case-insensitively; other values pass. */
  function CheckCompartments(arg: CompartmentsArg): (r: Outcome)
    ensures arg.OtherValue? ==> r.Pass?
    ensures arg.OneCompartment? ==> (r.Pass? <==> Lower(arg.name) in ValidCompartments)
    ensures arg.CompartmentList? ==> (r.Pass? <==> forall i :: 0 <= i < |arg.names| ==> Lower(arg.names[i]) in ValidCompartments)
    ensures r.Fail? ==> r.error == Error(AssertionError, CompartmentError)
  {
    match arg
    case OtherValue => Pass
    case OneCompartment(name) => Check(Lower(name) in ValidCompartments, AssertionError, CompartmentError)
    case CompartmentList(names) =>
      Check(forall i :: 0 <= i < |names| ==> Lower(names[i]) in ValidCompartments, AssertionError, CompartmentError)
  }

  /** Letter case never decides whether a compartment is accepted. */
  lemma {:induction false} CheckCompartmentsIgnoresCase(name: string)
    ensures CheckCompartments(OneCompartment(name)) == CheckCompartments(OneCompartment(Lower(name)))
  {
    LowerIdempotent(name);
  }

  const CorrelationMethods: seq<string> := ["pearson", "spearman", "kendall"]

  /** `check_correlation_method`: the lower-cased method when supported. */
  function CheckCorrelationMethod(name: string): (r: Result<string>)
    ensures r.Ok? <==> Lower(name) in CorrelationMethods
    ensures r.Ok? ==> r.value == Lower(name)
    ensures r.Err? ==> r.error == Error(AssertionError,
      "method " + Lower(name) + " not supported, select one of ['pearson', 'spearman', 'kendall']")
  {
    var m := Lower(name);
    if m in CorrelationMethods then Ok(m)
    else Raise(AssertionError, "method " + m + " not supported, select one of ['pearson', 'spearman', 'kendall']")
  }

  /** A checked method passes the check again unchanged. */
  lemma {:induction false} CorrelationMethodIdempotent(name: string)
    requires CheckCorrelationMethod(name).Ok?
    ensures CheckCorrelationMethod(CheckCorrelationMethod(name).value) == CheckCorrelationMethod(name)
  {
    LowerIdempotent(name);
  }

  const AggregateOperations: seq<string> := ["mean", "median"]

  /** `check_aggregate_operation`: the lower-cased operation when supported. */
  function CheckAggregateOperation(operation: string): (r: Result<string>)
    ensures r.Ok? <==> Lower(operation) in AggregateOperations
    ensures r.Ok? ==> r.value == Lower(operation)
    ensures r.Err? ==> r.error == Error(AssertionError,
      "operation " + Lower(operation) + " not supported, select one of ['mean', 'median']")
  {
    var op := Lower(operation);
    if op in AggregateOperations then Ok(op)
    else Raise(AssertionError, "operation " + op + " not supported, select one of ['mean', 'median']")
  }

  lemma {:induction false} AggregateOperationIdempotent(operation: string)
    requires CheckAggregateOperation(operation).Ok?
    ensures CheckAggregateOperation(CheckAggregateOperation(operation).value) == CheckAggregateOperation(operation)
  {
    LowerIdempotent(operation);
  }

  /** A Python dict from compartment to features: keys in insertion order. */
  datatype MetadataDict = MetadataDict(keys: seq<string>, features: map<string, seq<string>>)

  predicate WellFormed(d: MetadataDict)
  {
    NoDup(d.keys)
    && (forall i :: 0 <= i < |d.keys| ==> d.keys[i] in d.features)
    && (forall k :: k in d.features ==> k in d.keys)
  }

  /** `metadata_dict[compartment].append(feature)`, or a new key. */
  function AddFeature(d: MetadataDict, compartment: string, feature: string): (r: MetadataDict)
    requires WellFormed(d)
    ensures WellFormed(r)
  {
    if compartment in d.features then
      MetadataDict(d.keys, d.features[compartment := d.features[compartment] + [feature]])
    else
      MetadataDict(d.keys + [compartment], d.features[compartment := [feature]])
  }

  /** One line of the file: two tab-separated fields after stripping, compartment lower-cased. */
  function ParseLine(line: string): (r: Result<(string, string)>)
    ensures r.Ok? <==> |Split(Strip(line), "\t")| == 2
    ensures r.Err? ==> r.error.kind == ValueError
  {
    var parts := Split(Strip(line), "\t");
    if |parts| < 2 then Raise(ValueError, "not enough values to unpack (expected 2, got 1)")
    else if |parts| > 2 then Raise(ValueError, "too many values to unpack (expected 2)")
    else Ok((Lower(parts[0]), parts[1]))
  }

  /** The dictionary built from lines that `parse` reads, or the first parse error. */
  function Build(lines: seq<string>, parse: string -> Result<(string, string)>): (r: Result<MetadataDict>)
    ensures r.Ok? ==> WellFormed(r.value)
    decreases |lines|
  {
    if lines == [] then Ok(MetadataDict([], map[]))
    else
      var d :- Build(lines[..|lines| - 1], parse);
      var entry :- parse(lines[|lines| - 1]);
      Ok(AddFeature(d, entry.0, entry.1))
  }

  /** The features listed for `compartment`, in file order. */
  function FeaturesOf(lines: seq<string>, parse: string -> Result<(string, string)>, compartment: string): seq<string>
    requires forall i :: 0 <= i < |lines| ==> parse(lines[i]).Ok?
  {
    if lines == [] then []
    else
      var init := FeaturesOf(lines[..|lines| - 1], parse, compartment);
      var entry := parse(lines[|lines| - 1]).value;
      if entry.0 == compartment then init + [entry.1] else init
  }

  /**
   * `load_known_metadata_dictionary` over the file's lines: the header is
   * skipped (an empty file raises `StopIteration`), every other line is parsed.
   */
  method LoadKnownMetadataDictionary(lines: seq<string>) returns (r: Result<MetadataDict>)
    ensures lines == [] ==> r == Raise(StopIteration, "")
    ensures lines != [] ==> r == Build(lines[1..], ParseLine)
  {
    if lines == [] {
      return Raise(StopIteration, "");
    }
    var body := lines[1..];
    var d := MetadataDict([], map[]);
    var i := 0;
    while i < |body|
      invariant 0 <= i <= |body|
      invariant Build(body[..i], ParseLine) == Ok(d)
    {
      TakeNext(body, i);
      BuildSnoc(body[..i], body[i], ParseLine);
      var entry := ParseLine(body[i]);
      if entry.Err? {
        BuildKeepsError(body, i + 1, ParseLine);
        return Err(entry.error);
      }
      d := AddFeature(d, entry.value.0, entry.value.1);
      i := i + 1;
    }
    assert body[..i] == body;
    return Ok(d);
  }

  lemma BuildSnoc(lines: seq<string>, line: string, parse: string -> Result<(string, string)>)
    ensures Build(lines + [line], parse) ==
      if Build(lines, parse).Err? then Build(lines, parse)
      else if parse(line).Err? then Err(parse(line).error)
      else Ok(AddFeature(Build(lines, parse).value, parse(line).value.0, parse(line).value.1))
  {
    var all := lines + [line];
    assert all[..|all| - 1] == lines;
  }

  /** The first line that fails to parse decides the error of the whole file. */
  lemma {:induction false} BuildKeepsError(lines: seq<string>, k: nat, parse: string -> Result<(string, string)>)
    requires k <= |lines| && Build(lines[..k], parse).Err?
    ensures Build(lines, parse) == Build(lines[..k], parse)
    decreases |lines| - k
  {
    if k < |lines| {
      assert lines[..k + 1] == lines[..k] + [lines[k]];
      BuildSnoc(lines[..k], lines[k], parse);
      BuildKeepsError(lines, k + 1, parse);
    } else {
      assert lines[..k] == lines;
    }
  }

  /** Every line parsed whenever the whole file loaded. */
  lemma {:induction false} BuildParsesAll(lines: seq<string>, parse: string -> Result<(string, string)>)
    requires Build(lines, parse).Ok?
    ensures forall i :: 0 <= i < |lines| ==> parse(lines[i]).Ok?
  {
    if lines != [] {
      var init := lines[..|lines| - 1];
      BuildParsesAll(init, parse);
      assert forall i :: 0 <= i < |init| ==> lines[i] == init[i];
    }
  }

  /**
   * The loaded dictionary holds exactly the compartments that occur, each
   * with its features in file order.
   */
  lemma {:induction false} BuildContents(lines: seq<string>, parse: string -> Result<(string, string)>, compartment: string)
    requires Build(lines, parse).Ok?
    ensures forall i :: 0 <= i < |lines| ==> parse(lines[i]).Ok?
    ensures compartment in Build(lines, parse).value.features <==> FeaturesOf(lines, parse, compartment) != []
    ensures compartment in Build(lines, parse).value.features ==>
      Build(lines, parse).value.features[compartment] == FeaturesOf(lines, parse, compartment)
    decreases |lines|
  {
    BuildParsesAll(lines, parse);
    if lines != [] {
      var init := lines[..|lines| - 1];
      BuildContents(init, parse, compartment);
      assert forall i :: 0 <= i < |init| ==> init[i] == lines[i];
    }
  }

  /** Lower triangle index pairs `(a, b)` with `b < a`, row by row, as `stack()` lists them. */
  function LowerPairs(n: nat): (r: seq<(nat, nat)>)
    ensures forall k :: 0 <= k < |r| ==> r[k].1 < r[k].0 < n
    ensures forall a, b :: 0 <= b < a < n ==> (a, b) in r
    ensures NoDup(r)
  {
    if n == 0 then []
    else
      var row := LowerRow(n - 1);
      assert forall a, b :: 0 <= b < a < n && a == n - 1 ==> row[b] == (a, b);
      LowerPairs(n - 1) + row
  }

  /** Row `a` of the strict lower triangle: `(a, 0), …, (a, a - 1)`. */
  function LowerRow(a: nat): (r: seq<(nat, nat)>)
    ensures |r| == a && forall j :: 0 <= j < a ==> r[j] == (a, j)
  {
    seq(a, j requires 0 <= j < a => (a, j))
  }

  type Matrix = seq<seq<real>>

  /** A matrix entry; cells outside the given rows read as zero. */
  function At(m: Matrix, i: nat, j: nat): real
  {
    if i < |m| && j < |m[i]| then m[i][j] else 0.0
  }

  /**
   * `get_pairwise_correlation`: the correlation matrix `cor` (computed
   * outside the model) and its strict lower triangle in long format.
   */
  function GetPairwiseCorrelation(names: seq<string>, cor: Matrix, name: string): (r: Result<(Matrix, seq<(string, string, real)>)>)
    ensures r.Ok? <==> CheckCorrelationMethod(name).Ok?
    ensures r.Ok? ==> r.value.0 == cor && |r.value.1| == |LowerPairs(|names|)|
    ensures r.Ok? ==> forall k :: 0 <= k < |r.value.1| ==>
      var (a, b) := LowerPairs(|names|)[k];
      r.value.1[k] == (names[a], names[b], At(cor, a, b))
  {
    var _ :- CheckCorrelationMethod(name);
    var pairs := LowerPairs(|names|);
    Ok((cor, seq(|pairs|, k requires 0 <= k < |pairs| => (names[pairs[k].0], names[pairs[k].1], At(cor, pairs[k].0, pairs[k].1)))))
  }
}
