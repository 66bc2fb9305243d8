/**
 * The command line wrapper: how each command turns its text arguments into the
 * library's arguments, and the check on what the library returned. The library
 * calls and the profile loads are left out; their results are parameters.
 */
module Cli {
  import opened Wrappers
  import opened Strings

  // ------------------------------------------------------------ _split_csv_arg

  /** A command line value: a string, or a sequence of strings. */
  datatype CsvArg = CsvString(s: string) | CsvItems(items: seq<string>)

  /** `[item.strip() for item in items if item and str(item).strip()]`. */
  function CleanItems(items: seq<string>): (r: seq<string>)
    ensures |r| <= |items|
    ensures forall k :: 0 <= k < |r| ==> r[k] != "" && Strip(r[k]) == r[k]
  {
    if items == [] then []
    else
      var rest := CleanItems(items[1..]);
      var x := items[0];
      if x != "" && Strip(x) != "" then
        StripCharsIdempotent(x, Whitespace);
        [Strip(x)] + rest
      else rest
  }

  /** Every cleaned item is the stripped form of some item. */
  lemma {:induction false} CleanItemsSound(items: seq<string>, y: string)
    requires y in CleanItems(items)
    ensures exists k :: 0 <= k < |items| && Strip(items[k]) == y
  {
    var rest := items[1..];
    if y in CleanItems(rest) {
      CleanItemsSound(rest, y);
      var k :| 0 <= k < |rest| && Strip(rest[k]) == y;
      assert items[k + 1] == rest[k];
    } else {
      assert Strip(items[0]) == y;
    }
  }

  /** Every item that is not blank is kept, stripped. */
  lemma {:induction false} CleanItemsComplete(items: seq<string>, k: nat)
    requires k < |items| && Strip(items[k]) != ""
    ensures Strip(items[k]) in CleanItems(items)
  {
    var rest := items[1..];
    if k > 0 {
      assert items[k] == rest[k - 1];
      CleanItemsComplete(rest, k - 1);
    } else {
      assert items[0] != "";
    }
  }

  /** The cleaned items are exactly the non-blank items, stripped. */
  lemma CleanItemsMember(items: seq<string>, y: string)
    ensures y in CleanItems(items) <==> y != "" && exists x :: x in items && Strip(x) == y
  {
    if y in CleanItems(items) {
      CleanItemsSound(items, y);
      var k :| 0 <= k < |items| && Strip(items[k]) == y;
      assert items[k] in items;
    }
    if y != "" && exists x :: x in items && Strip(x) == y {
      var x :| x in items && Strip(x) == y;
      var k :| 0 <= k < |items| && items[k] == x;
      CleanItemsComplete(items, k);
    }
  }

  /** Cleaning a cleaned list gives it back. */
  lemma {:induction false} CleanItemsClean(items: seq<string>)
    requires forall k :: 0 <= k < |items| ==> items[k] != "" && Strip(items[k]) == items[k]
    ensures CleanItems(items) == items
  {
    if items != [] {
      CleanItemsClean(items[1..]);
    }
  }

  /** `_split_csv_arg`: a string is split on commas, a sequence is taken as a list; then cleaned. */
  function SplitCsvArg(v: CsvArg): (r: seq<string>)
    ensures forall k :: 0 <= k < |r| ==> r[k] != "" && Strip(r[k]) == r[k]
    ensures v.CsvItems? ==> r == CleanItems(v.items)
    ensures v.CsvString? ==> forall k :: 0 <= k < |r| ==> ',' !in r[k]
  {
    match v
    case CsvString(s) =>
      SplitPiecesNoSeparator(s, ',');
      CleanWithout(Split(s, ","), ',');
      CleanItems(Split(s, ","))
    case CsvItems(items) => CleanItems(items)
  }

  lemma StripWithout(s: string, c: char)
    requires c !in s
    ensures c !in Strip(s)
  {
    var l := LStrip(s, Whitespace);
    assert forall k :: 0 <= k < |l| ==> l[k] == s[|s| - |l| + k];
    var r := RStrip(l, Whitespace);
    assert forall k :: 0 <= k < |r| ==> r[k] == l[k];
  }

  lemma {:induction false} CleanWithout(items: seq<string>, c: char)
    requires forall k :: 0 <= k < |items| ==> c !in items[k]
    ensures forall k :: 0 <= k < |CleanItems(items)| ==> c !in CleanItems(items)[k]
  {
    if items != [] {
      CleanWithout(items[1..], c);
      StripWithout(items[0], c);
    }
  }

  /** Splitting the list `_split_csv_arg` returned gives the same list. */
  lemma SplitCsvArgIdempotent(v: CsvArg)
    ensures SplitCsvArg(CsvItems(SplitCsvArg(v))) == SplitCsvArg(v)
  {
    CleanItemsClean(SplitCsvArg(v));
  }

  /** Clean comma-free items survive being joined with commas and split again. */
  lemma SplitJoined(items: seq<string>)
    requires forall k :: 0 <= k < |items| ==> items[k] != "" && Strip(items[k]) == items[k] && ',' !in items[k]
    ensures SplitCsvArg(CsvString(Join(items, ","))) == items
  {
    if items == [] {
      assert Split("", ",") == [""] by {
        assert Find("", ",").None?;
      }
    } else {
      SplitJoin(items, ',');
      CleanItemsClean(items);
    }
  }

  // ------------------------------------------------------------ _parse_list_or_str

  /** A value that may stay a string or become a list. */
  datatype Parsed = NoValue | Text(s: string) | Items(items: seq<string>)

  /** `_parse_list_or_str`: None stays None, a comma-free string stays, a string with a comma is split. */
  function ParseListOrStr(v: Option<string>): (r: Parsed)
    ensures v.None? <==> r.NoValue?
    ensures v.Some? && ',' !in v.value ==> r == Text(v.value)
    ensures v.Some? && ',' in v.value ==> r == Items(SplitCsvArg(CsvString(v.value)))
  {
    match v
    case None => NoValue
    case Some(s) => if ',' in s then Items(SplitCsvArg(CsvString(s))) else Text(s)
  }

  /** A string result never holds a comma, so parsing it again keeps it. */
  lemma ParseListOrStrStable(v: Option<string>)
    requires ParseListOrStr(v).Text?
    ensures ParseListOrStr(Some(ParseListOrStr(v).s)) == ParseListOrStr(v)
  {
  }

  // ------------------------------------------------------------ per-command arguments

  /** The `features` value a command passes on: "infer" verbatim, or a list. */
  datatype FeaturesValue = InferFeatures | FeatureList(names: seq<string>)

  /** `"infer"` as a string is passed through; anything else is split. */
  function FeaturesArg(v: CsvArg): (r: FeaturesValue)
    ensures r.InferFeatures? <==> v == CsvString("infer")
    ensures r.FeatureList? ==> r.names == SplitCsvArg(v)
  {
    if v == CsvString("infer") then InferFeatures else FeatureList(SplitCsvArg(v))
  }

  /** A list holding the single item "infer" is not the string "infer": it is a feature list. */
  lemma InferListIsList()
    ensures FeaturesArg(CsvItems(["infer"])) == FeatureList(["infer"])
  {
    StripUnpadded("infer");
    CleanItemsClean(["infer"]);
  }

  /** The arguments `aggregate` hands to the library. */
  datatype AggregateCall = AggregateCall(strata: seq<string>, features: FeaturesValue)

  function AggregateArgs(strata: CsvArg, features: CsvArg): (r: AggregateCall)
    ensures r.strata == SplitCsvArg(strata) && r.features == FeaturesArg(features)
  {
    AggregateCall(SplitCsvArg(strata), FeaturesArg(features))
  }

  /** `annotate`: the join keys must come to exactly two. */
  function AnnotateJoinOn(joinOn: CsvArg): (r: Result<seq<string>>)
    ensures r.Ok? <==> |SplitCsvArg(joinOn)| == 2
    ensures r.Ok? ==> r.value == SplitCsvArg(joinOn)
    ensures r.Err? ==> r == Raise(ValueError, "join_on must contain exactly two values.")
  {
    var values := SplitCsvArg(joinOn);
    if |values| != 2 then Raise(ValueError, "join_on must contain exactly two values.") else Ok(values)
  }

  /** Two clean comma-free keys written `a,b` (the default is the platemap's and the profiles' well column) pass. */
  lemma TwoJoinKeys(a: string, b: string)
    requires a != "" && Strip(a) == a && ',' !in a
    requires b != "" && Strip(b) == b && ',' !in b
    ensures AnnotateJoinOn(CsvString(a + "," + b)) == Ok([a, b])
  {
    assert a + "," + b == Join([a, b], ",");
    SplitJoined([a, b]);
  }

  /** Clean comma-free keys joined with commas pass exactly when there are two of them. */
  lemma JoinKeyCount(items: seq<string>)
    requires forall k :: 0 <= k < |items| ==> items[k] != "" && Strip(items[k]) == items[k] && ',' !in items[k]
    ensures AnnotateJoinOn(CsvString(Join(items, ","))).Ok? <==> |items| == 2
  {
    SplitJoined(items);
  }

  /** The arguments `normalize` hands to the library. */
  datatype NormalizeCall = NormalizeCall(features: FeaturesValue, metaFeatures: FeaturesValue)

  function NormalizeArgs(features: CsvArg, metaFeatures: CsvArg): (r: NormalizeCall)
    ensures r.features == FeaturesArg(features) && r.metaFeatures == FeaturesArg(metaFeatures)
  {
    NormalizeCall(FeaturesArg(features), FeaturesArg(metaFeatures))
  }

  /**
   * The `operation` of `feature_select`: a string with a comma is split and cleaned,
   * any other string stays, and a sequence is taken as a list as it is.
   */
  function OperationArg(v: CsvArg): (r: Parsed)
    ensures v.CsvString? && ',' in v.s ==> r == Items(SplitCsvArg(v))
    ensures v.CsvString? && ',' !in v.s ==> r == Text(v.s)
    ensures v.CsvItems? ==> r == Items(v.items)
  {
    match v
    case CsvString(s) => if ',' in s then Items(SplitCsvArg(v)) else Text(s)
    case CsvItems(items) => Items(items)
  }

  /** The arguments `feature_select` hands to the library. */
  datatype FeatureSelectCall = FeatureSelectCall(features: FeaturesValue, operation: Parsed, noiseGroups: Parsed)

  function FeatureSelectArgs(features: CsvArg, operation: CsvArg, noiseGroups: Option<string>): (r: FeatureSelectCall)
    ensures r.features == FeaturesArg(features)
    ensures r.operation == OperationArg(operation) && !r.operation.NoValue?
    ensures r.noiseGroups == ParseListOrStr(noiseGroups)
  {
    FeatureSelectCall(FeaturesArg(features), OperationArg(operation), ParseListOrStr(noiseGroups))
  }

  /** The `modz_args` dictionary of `consensus`. */
  datatype ModzArgs = ModzArgs(correlation: string, minWeight: real, precision: int)

  /** The arguments `consensus` hands to the library. */
  datatype ConsensusCall = ConsensusCall(replicateColumns: seq<string>, features: FeaturesValue, modz: Option<ModzArgs>)

  function ConsensusArgs(replicateColumns: CsvArg, features: CsvArg, operation: string,
                         modzMethod: string, modzMinWeight: real, modzPrecision: int): (r: ConsensusCall)
    ensures r.replicateColumns == SplitCsvArg(replicateColumns) && r.features == FeaturesArg(features)
    ensures r.modz.Some? <==> operation == "modz"
    ensures r.modz.Some? ==> r.modz.value == ModzArgs(modzMethod, modzMinWeight, modzPrecision)
  {
    var modz := if operation == "modz" then Some(ModzArgs(modzMethod, modzMinWeight, modzPrecision)) else None;
    ConsensusCall(SplitCsvArg(replicateColumns), FeaturesArg(features), modz)
  }

  // ------------------------------------------------------------ the result check

  /** What a library call returned: an output path, or a frame when no file was written. */
  datatype Returned = ReturnedPath(path: string) | ReturnedFrame

  /** Every command returns the path, and raises the wrapper's error for anything else. */
  function CheckResult(command: string, returned: Returned): (r: Result<string>)
    ensures r.Ok? <==> returned.ReturnedPath?
    ensures r.Ok? ==> r.value == returned.path
    ensures r.Err? ==> r == Raise(CliError, command + "() returned a DataFrame when a file path was expected.")
  {
    match returned
    case ReturnedPath(p) => Ok(p)
    case ReturnedFrame => Raise(CliError, command + "() returned a DataFrame when a file path was expected.")
  }

  /**
   * The `annotate` command end to end: the join keys are checked before the library
   * is called (`returned` is what it gives back), then the result is checked.
   */
  function Annotate(joinOn: CsvArg, returned: Returned): (r: Result<string>)
    ensures |SplitCsvArg(joinOn)| != 2 ==> r == Raise(ValueError, "join_on must contain exactly two values.")
    ensures |SplitCsvArg(joinOn)| == 2 ==> r == CheckResult("annotate", returned)
  {
    var _ :- AnnotateJoinOn(joinOn);
    CheckResult("annotate", returned)
  }
}
