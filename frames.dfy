/**
 * The data frames the modelled code reads: named columns of cells, each
 * column holding one cell per row. Missing values (`NaN`, `None`) are `Null`.
 * A `samples` query is evaluated outside the model and arrives as a row mask.
 */
module Frames {
  import opened Seqs
  import opened Strings
  import opened Wrappers

  datatype Cell = Null | Num(r: real) | Str(s: string)

  datatype Frame = Frame(columns: seq<string>, data: map<string, seq<Cell>>, nrows: nat)

  /** Column names are distinct, every named column is stored, and all have `nrows` cells. */
  predicate Valid(f: Frame)
  {
    NoDup(f.columns)
    && (forall i :: 0 <= i < |f.columns| ==> f.columns[i] in f.data)
    && (forall c :: c in f.data ==> c in f.columns && |f.data[c]| == f.nrows)
  }

  predicate HasColumns(f: Frame, names: seq<string>)
  {
    forall i :: 0 <= i < |names| ==> names[i] in f.data
  }

  /** The names of `names` that are not columns of `f`, as `loc[:, names]` reports them. */
  function MissingColumns(f: Frame, names: seq<string>): (r: seq<string>)
    ensures r == [] <==> HasColumns(f, names)
    ensures forall i :: 0 <= i < |r| ==> r[i] in names && r[i] !in f.data
  {
    if names == [] then []
    else
      var rest := MissingColumns(f, names[1..]);
      assert HasColumns(f, names) <==> names[0] in f.data && HasColumns(f, names[1..]) by {
        forall i | 0 <= i < |names[1..]| ensures names[1..][i] == names[i + 1] { }
      }
      if names[0] in f.data then rest else [names[0]] + rest
  }

  /** `df.loc[:, names]` succeeds exactly when every name is a column (otherwise `KeyError`). */
  function CheckColumns(f: Frame, names: seq<string>): (r: Outcome)
    ensures r.Pass? <==> HasColumns(f, names)
    ensures r.Fail? ==> r.error.kind == KeyError
  {
    var missing := MissingColumns(f, names);
    if missing == [] then Pass
    else Fail(Error(KeyError, Join(missing, ", ") + " not in index"))
  }

  /** The elements of `s` whose mask entry is true, in order. */
  function Pick<T>(s: seq<T>, mask: seq<bool>): (r: seq<T>)
    requires |s| == |mask|
    ensures |r| == Count(mask, true)
  {
    if s == [] then [] else (if mask[0] then [s[0]] else []) + Pick(s[1..], mask[1..])
  }

  /** The rows a `samples` argument selects: all of them, or those a query matched. */
  datatype Samples = AllSamples | Query(mask: seq<bool>)

  predicate SamplesFit(f: Frame, samples: Samples)
  {
    samples.Query? ==> |samples.mask| == f.nrows
  }

  /** `population_df.query(samples)` (or the whole frame for `"all"`). */
  function ApplySamples(f: Frame, samples: Samples): (r: Frame)
    requires Valid(f) && SamplesFit(f, samples)
    ensures Valid(r) && r.columns == f.columns
    ensures samples.AllSamples? ==> r == f
    ensures samples.Query? ==> r.nrows == Count(samples.mask, true)
  {
    match samples
    case AllSamples => f
    case Query(mask) =>
      Frame(f.columns, map c | c in f.data :: Pick(f.data[c], mask), Count(mask, true))
  }

  /** `df.loc[labels, :]` on a default integer index: rows by position, `KeyError` when absent. */
  function PickRows(f: Frame, rows: seq<nat>): (r: Result<Frame>)
    requires Valid(f)
    ensures r.Ok? <==> forall i :: 0 <= i < |rows| ==> rows[i] < f.nrows
    ensures r.Ok? ==> Valid(r.value) && r.value.columns == f.columns && r.value.nrows == |rows|
    ensures r.Ok? ==> forall c, i :: c in f.data && 0 <= i < |rows| ==> r.value.data[c][i] == f.data[c][rows[i]]
  {
    if forall i :: 0 <= i < |rows| ==> rows[i] < f.nrows then
      Ok(Frame(f.columns, map c | c in f.data :: seq(|rows|, i requires 0 <= i < |rows| => f.data[c][rows[i]]), |rows|))
    else Raise(KeyError, "None of the labels are in the index")
  }

  /** The cells of column `c` that are not missing. */
  function NonNull(cells: seq<Cell>): (r: seq<Cell>)
    ensures forall i :: 0 <= i < |r| ==> r[i] != Null && r[i] in cells
    ensures forall i :: 0 <= i < |cells| && cells[i] != Null ==> cells[i] in r
  {
    Filter(cells, (x: Cell) => x != Null)
  }

  function NullCount(cells: seq<Cell>): (n: nat)
    ensures n <= |cells|
    ensures n == 0 <==> forall i :: 0 <= i < |cells| ==> cells[i] != Null
  {
    if cells == [] then 0 else (if cells[0] == Null then 1 else 0) + NullCount(cells[1..])
  }

  /** A `features` argument: `"infer"` or an explicit list of column names. */
  datatype FeatureArg = Infer | Names(names: seq<string>)

  /**
   * The feature list an operation works on; `inferred` is what the feature
   * inference routine returns for the frame at hand.
   */
  function ResolveFeatures(arg: FeatureArg, inferred: seq<string>): seq<string>
  {
    match arg
    case Infer => inferred
    case Names(names) => names
  }

  /** Python's `repr` of a list of strings: `['a', 'b']`. */
  function ListRepr(xs: seq<string>): string
  {
    "[" + Join(seq(|xs|, i requires 0 <= i < |xs| => "'" + xs[i] + "'"), ", ") + "]"
  }

  /** `drop(names, axis="columns")`: every named column must exist; the rest keep their order. */
  function DropColumns(f: Frame, names: seq<string>): (r: Result<Frame>)
    requires Valid(f)
    ensures r.Ok? <==> HasColumns(f, names)
    ensures r.Err? ==> r.error.kind == KeyError
    ensures r.Ok? ==> Valid(r.value) && r.value.nrows == f.nrows
    ensures r.Ok? ==> forall c :: c in r.value.columns <==> c in f.columns && c !in names
    ensures r.Ok? ==> Subseq(r.value.columns, f.columns)
    ensures r.Ok? ==> forall c :: c in r.value.data ==> r.value.data[c] == f.data[c]
  {
    var missing := MissingColumns(f, names);
    if missing != [] then Raise(KeyError, ListRepr(missing) + " not found in axis")
    else
      var kept := Filter(f.columns, (c: string) => c !in names);
      FilterSubseq(f.columns, (c: string) => c !in names);
      FilterNoDup(f.columns, (c: string) => c !in names);
      Ok(Frame(kept, map c | c in f.data && c !in names :: f.data[c], f.nrows))
  }

  /** `drop(names, axis="columns", errors="ignore")`: names that are not columns are skipped. */
  function DropIfPresent(f: Frame, names: seq<string>): (r: Frame)
    requires Valid(f)
    ensures Valid(r) && r.nrows == f.nrows
    ensures forall c :: c in r.columns <==> c in f.columns && c !in names
    ensures forall c :: c in r.data ==> r.data[c] == f.data[c]
  {
    FilterNoDup(f.columns, NotIn(names));
    Frame(Filter(f.columns, NotIn(names)), map c | c in f.data && c !in names :: f.data[c], f.nrows)
  }

  /** The columns that stay keep their order. */
  lemma DropIfPresentKeepsOrder(f: Frame, names: seq<string>)
    requires Valid(f)
    ensures Subseq(DropIfPresent(f, names).columns, f.columns)
  {
    FilterSubseq(f.columns, NotIn(names));
  }

  /** Dropping a column that is present, strictly or ignoring errors, gives the same frame. */
  lemma DropPresentColumn(f: Frame, c: string)
    requires Valid(f) && c in f.columns
    ensures DropColumns(f, [c]) == Ok(DropIfPresent(f, [c]))
  {
  }

  /** Dropping an absent column changes nothing. */
  lemma DropAbsentColumn(f: Frame, c: string)
    requires Valid(f) && c !in f.columns
    ensures DropIfPresent(f, [c]) == f
  {
    FilterAll(f.columns, NotIn([c]));
    assert forall x :: x in f.data ==> x != c;
  }

  /** Dropping `a` and then `b` is dropping `a + b`. */
  lemma DropIfPresentTwice(f: Frame, a: seq<string>, b: seq<string>)
    requires Valid(f)
    ensures DropIfPresent(DropIfPresent(f, a), b) == DropIfPresent(f, a + b)
  {
    var once := Filter(f.columns, NotIn(a));
    forall i | 0 <= i < |once| ensures NotIn(b)(once[i]) == NotIn(a + b)(once[i]) {
      assert once[i] !in a;
    }
    FilterCongruent(once, NotIn(b), NotIn(a + b));
    FilterFilter(f.columns, NotIn(a), NotIn(a + b));
  }

  /** Dropping nothing changes nothing. */
  lemma DropNothing(f: Frame)
    requires Valid(f)
    ensures DropIfPresent(f, []) == f
  {
    FilterAll(f.columns, NotIn([]));
  }

  /** One step of dropping columns one at a time, each only when present. */
  lemma DropStep(f: Frame, done: seq<string>, c: string)
    requires Valid(f)
    ensures var g := DropIfPresent(f, done);
      (c in g.columns ==> DropColumns(g, [c]) == Ok(DropIfPresent(f, done + [c])))
      && (c !in g.columns ==> g == DropIfPresent(f, done + [c]))
  {
    var g := DropIfPresent(f, done);
    DropIfPresentTwice(f, done, [c]);
    if c in g.columns {
      DropPresentColumn(g, c);
    } else {
      DropAbsentColumn(g, c);
    }
  }
}
