/**
 * Grouped aggregation (aggregate.py): one output row per distinct strata
 * key, the mean or median of every feature over the group, an optional
 * per-group object count, rows sorted by strata, and the `ImageNumber` and
 * `ObjectNumber` columns removed.
 */
module Aggregate {
  import opened Seqs
  import opened Strings
  import opened Wrappers
  import opened Frames
  import opened Util
  import opened Grouping

  // ---------------------------------------------------------------- statistics

  predicate RealsSorted(s: seq<real>)
  {
    forall i, j :: 0 <= i < j < |s| ==> s[i] <= s[j]
  }

  /** A sorted list stays sorted with a first element no larger than its head. */
  lemma SortedCons(x: real, s: seq<real>)
    requires RealsSorted(s) && (s != [] ==> x <= s[0])
    ensures RealsSorted([x] + s)
  {
    var r := [x] + s;
    forall i, j | 0 <= i < j < |r| ensures r[i] <= r[j] {
      assert r[j] == s[j - 1];
      if i > 0 {
        assert r[i] == s[i - 1];
      }
    }
  }

  lemma SortedTail(s: seq<real>)
    requires s != [] && RealsSorted(s)
    ensures RealsSorted(s[1..])
  {
    forall i, j | 0 <= i < j < |s| - 1 ensures s[1..][i] <= s[1..][j] {
      assert s[1..][i] == s[i + 1] && s[1..][j] == s[j + 1];
    }
  }

  function InsertReal(x: real, s: seq<real>): (r: seq<real>)
    requires RealsSorted(s)
    ensures RealsSorted(r)
    ensures multiset(r) == multiset(s) + multiset{x}
    ensures r != [] && (r[0] == x || (s != [] && r[0] == s[0]))
  {
    if s == [] then [x]
    else if x <= s[0] then SortedCons(x, s); [x] + s
    else
      SortedTail(s);
      var rest := InsertReal(x, s[1..]);
      assert multiset(s) == multiset{s[0]} + multiset(s[1..]) by { assert s == [s[0]] + s[1..]; }
      assert s[0] <= rest[0] by {
        if rest[0] != x { assert rest[0] == s[1..][0]; }
      }
      SortedCons(s[0], rest);
      [s[0]] + rest
  }

  function SortReals(s: seq<real>): (r: seq<real>)
    ensures RealsSorted(r)
    ensures multiset(r) == multiset(s)
  {
    if s == [] then []
    else
      assert s == [s[0]] + s[1..];
      InsertReal(s[0], SortReals(s[1..]))
  }

  /** The values of a column cast to float, missing values skipped. */
  function Values(cells: seq<Cell>): (r: seq<real>)
    ensures |r| <= |cells|
    ensures forall i :: 0 <= i < |r| ==> Num(r[i]) in cells
  {
    if cells == [] then []
    else (if cells[0].Num? then [cells[0].r] else []) + Values(cells[1..])
  }

  lemma {:induction false} ValuesConcat(a: seq<Cell>, b: seq<Cell>)
    ensures Values(a + b) == Values(a) + Values(b)
  {
    if a != [] {
      assert (a + b)[1..] == a[1..] + b;
      ValuesConcat(a[1..], b);
    } else {
      assert a + b == b;
    }
  }

  /** The arithmetic mean; `None` (NaN) for an empty group. */
  function Mean(xs: seq<real>): (r: Option<real>)
    ensures r.Some? <==> xs != []
  {
    if xs == [] then None else Some(SumReal(xs) / (|xs| as real))
  }

  /** The median: the middle of the sorted values, or the mean of the two middle ones. */
  function Median(xs: seq<real>): (r: Option<real>)
    ensures r.Some? <==> xs != []
  {
    if xs == [] then None
    else
      var s := SortReals(xs);
      assert |s| == |multiset(s)| == |multiset(xs)| == |xs|;
      var h := |s| / 2;
      if |s| % 2 == 1 then Some(s[h]) else Some((s[h - 1] + s[h]) / 2.0)
  }

  lemma {:induction false} SumBounds(xs: seq<real>, lo: real, hi: real)
    requires forall i :: 0 <= i < |xs| ==> lo <= xs[i] <= hi
    ensures lo * (|xs| as real) <= SumReal(xs) <= hi * (|xs| as real)
  {
    if xs != [] {
      SumBounds(xs[1..], lo, hi);
      assert (|xs| as real) == (|xs[1..]| as real) + 1.0;
    }
  }

  lemma DivideBounds(s: real, n: real, lo: real, hi: real)
    requires n > 0.0 && lo * n <= s <= hi * n
    ensures lo <= s / n <= hi
  {
    assert (s / n) * n == s;
  }

  /** The mean of values in `[lo, hi]` lies in `[lo, hi]`. */
  lemma MeanWithin(xs: seq<real>, lo: real, hi: real)
    requires xs != [] && forall i :: 0 <= i < |xs| ==> lo <= xs[i] <= hi
    ensures lo <= Mean(xs).value <= hi
  {
    SumBounds(xs, lo, hi);
    DivideBounds(SumReal(xs), |xs| as real, lo, hi);
  }

  /** The median of values in `[lo, hi]` lies in `[lo, hi]`. */
  lemma MedianWithin(xs: seq<real>, lo: real, hi: real)
    requires xs != [] && forall i :: 0 <= i < |xs| ==> lo <= xs[i] <= hi
    ensures lo <= Median(xs).value <= hi
  {
    var s := SortReals(xs);
    assert |s| == |multiset(s)| == |multiset(xs)| == |xs|;
    forall k | 0 <= k < |s| ensures lo <= s[k] <= hi {
      assert s[k] in multiset(xs);
      var i :| 0 <= i < |xs| && xs[i] == s[k];
    }
  }

  /** A group whose values all equal `v` aggregates to `v` under both operations. */
  lemma ConstantGroup(xs: seq<real>, v: real)
    requires xs != [] && forall i :: 0 <= i < |xs| ==> xs[i] == v
    ensures Mean(xs) == Some(v) && Median(xs) == Some(v)
  {
    MeanWithin(xs, v, v);
    MedianWithin(xs, v, v);
  }

  /** `getattr(nw.col(feature), operation)()` over one group. */
  function AggregateCells(op: string, cells: seq<Cell>): (r: Cell)
    requires op in AggregateOperations
    ensures r == Null <==> Values(cells) == []
  {
    var v := if op == "mean" then Mean(Values(cells)) else Median(Values(cells));
    if v.Some? then Num(v.value) else Null
  }

  // ---------------------------------------------------------------- the Float64 cast

  function Pow10(n: nat): (r: nat)
    ensures r >= 1
  {
    if n == 0 then 1 else 10 * Pow10(n - 1)
  }

  /**
   * The value of unsigned decimal text: digits with at most one '.' among
   * them and at least one digit in all, as in "12", "1.5", ".5" or "3.".
   */
  function DecimalValue(body: string): (r: Option<real>)
    ensures r.Some? ==> body != [] && r.value >= 0.0
  {
    match Find(body, ".")
    case None =>
      if body != [] && AllDigits(body) then Some(DigitsValue(body) as real) else None
    case Some(k) =>
      var whole := body[..k];
      var frac := body[k + 1..];
      if whole + frac != [] && AllDigits(whole) && AllDigits(frac) then
        Some(DigitsValue(whole) as real + DigitsValue(frac) as real / Pow10(|frac|) as real)
      else None
  }

  /** `float(text)` for decimal text, with white space around it and a sign before it allowed. */
  function ParseFloat(text: string): (r: Option<real>)
    ensures r.Some? ==> Strip(text) != [] && (r.value < 0.0 ==> Strip(text)[0] == '-')
  {
    var t := Strip(text);
    match DecimalValue(Unsigned(t))
    case None => None
    case Some(v) => Some(if t[0] == '-' then -v else v)
  }

  /** Integer text is cast to the integer `int()` reads from it. */
  lemma IntegerTextCast(text: string)
    requires ParseInt(text).Some?
    ensures ParseFloat(text) == Some(ParseInt(text).value as real)
  {
    var t := Strip(text);
    var body := Unsigned(t);
    NoPointInDigits(body);
    assert DecimalValue(body) == Some(DigitsValue(body) as real);
  }

  lemma NoPointInDigits(body: string)
    requires AllDigits(body)
    ensures Find(body, ".") == None
  {
    var k := Find(body, ".");
    if k.Some? {
      PointAt(body, k.value);
      assert false;
    }
  }

  lemma PointAt(s: string, i: nat)
    requires OccursAt(s, ".", i)
    ensures i < |s| && s[i] == '.'
  {
    assert s[i..i + 1][0] == s[i];
  }

  /** The cast of one cell: numbers and missing values are kept, text is parsed or raises `ValueError`. */
  function CastCell(c: Cell): (r: Result<Cell>)
    ensures r.Ok? <==> !c.Str? || ParseFloat(c.s).Some?
    ensures r.Ok? ==> !r.value.Str?
    ensures !c.Str? ==> r == Ok(c)
    ensures c.Str? && r.Ok? ==> r.value == Num(ParseFloat(c.s).value)
    ensures r.Err? ==> r.error.kind == ValueError
  {
    match c
    case Str(s) =>
      (match ParseFloat(s)
       case None => Raise(ValueError, "could not convert string to float: '" + s + "'")
       case Some(v) => Ok(Num(v)))
    case _ => Ok(c)
  }

  /** `cast(nw.Float64)` of a column: it fails at the first cell that cannot be cast. */
  function CastColumn(cells: seq<Cell>): (r: Result<seq<Cell>>)
    ensures r.Ok? <==> forall i :: 0 <= i < |cells| ==> CastCell(cells[i]).Ok?
    ensures r.Ok? ==> |r.value| == |cells| && forall i :: 0 <= i < |cells| ==> r.value[i] == CastCell(cells[i]).value
    ensures r.Err? ==> r.error.kind == ValueError
  {
    if cells == [] then Ok([])
    else
      var head :- CastCell(cells[0]);
      var tail :- CastColumn(cells[1..]);
      assert forall i :: 1 <= i < |cells| ==> cells[i] == cells[1..][i - 1];
      Ok([head] + tail)
  }

  /** Every listed feature column can be cast to `Float64`. */
  predicate Castable(g: Frame, features: seq<string>)
  {
    forall j :: 0 <= j < |features| ==> features[j] in g.data && CastColumn(g.data[features[j]]).Ok?
  }

  /** The frame with every listed feature column cast; any column that cannot be cast raises. */
  function CastFeatures(g: Frame, features: seq<string>): (r: Result<Frame>)
    requires Valid(g) && HasColumns(g, features)
    ensures r.Ok? <==> Castable(g, features)
    ensures r.Err? ==> r.error.kind == ValueError
    ensures r.Ok? ==> Valid(r.value) && r.value.columns == g.columns && r.value.nrows == g.nrows
    ensures r.Ok? ==> r.value.data.Keys == g.data.Keys
    ensures r.Ok? ==> forall c :: c in g.data ==>
      r.value.data[c] == if c in features then CastColumn(g.data[c]).value else g.data[c]
  {
    var failing := Filter(features, (c: string) => c in g.data && CastColumn(g.data[c]).Err?);
    if failing != [] then Err(CastColumn(g.data[failing[0]]).error)
    else
      Ok(Frame(g.columns, map c | c in g.data :: if c in features then CastColumn(g.data[c]).value else g.data[c],
               g.nrows))
  }

  /** A column of numbers and missing values passes the cast unchanged. */
  lemma NumbersCastUnchanged(cells: seq<Cell>)
    requires forall i :: 0 <= i < |cells| ==> !cells[i].Str?
    ensures CastColumn(cells) == Ok(cells)
  {
    forall i | 0 <= i < |cells| ensures CastCell(cells[i]) == Ok(cells[i]) {
      var c := cells[i];
      assert !c.Str?;
    }
    var r := CastColumn(cells);
    assert r.value == cells;
  }

  /** After the cast no feature column holds text, and the other columns are untouched. */
  lemma CastLeavesNoText(g: Frame, features: seq<string>, j: nat, i: nat)
    requires Valid(g) && HasColumns(g, features) && Castable(g, features)
    requires j < |features| && i < g.nrows
    ensures !CastFeatures(g, features).value.data[features[j]][i].Str?
  {
  }

  // ---------------------------------------------------------------- the subset join

  /** The population rows whose values on the subset's columns equal subset row `s`. */
  function Matching(subset: Frame, f: Frame, s: nat): (r: seq<nat>)
    requires Valid(subset) && Valid(f) && HasColumns(f, subset.columns) && s < subset.nrows
    ensures forall t :: 0 <= t < |r| ==> r[t] < f.nrows
    ensures forall p :: 0 <= p < f.nrows ==>
      (p in r <==> RowKey(f, subset.columns, p) == RowKey(subset, subset.columns, s))
    ensures NoDup(r)
  {
    var all := Range(f.nrows);
    var key := RowKey(subset, subset.columns, s);
    var r := Filter(all, (p: nat) => p < f.nrows && RowKey(f, subset.columns, p) == key);
    assert forall t :: 0 <= t < |r| ==> r[t] in all;
    forall p | 0 <= p < f.nrows && RowKey(f, subset.columns, p) == key ensures p in r {
      assert all[p] == p;
    }
    assert NoDup(all);
    FilterNoDup(all, (p: nat) => p < f.nrows && RowKey(f, subset.columns, p) == key);
    r
  }

  /** The population rows joined to the first `k` subset rows, in subset order. */
  function JoinRows(subset: Frame, f: Frame, k: nat): (r: seq<nat>)
    requires Valid(subset) && Valid(f) && HasColumns(f, subset.columns) && k <= subset.nrows
    ensures forall t :: 0 <= t < |r| ==> r[t] < f.nrows
  {
    if k == 0 then [] else JoinRows(subset, f, k - 1) + Matching(subset, f, k - 1)
  }

  /** How many of the first `k` subset rows a population row matches. */
  function MatchCount(subset: Frame, f: Frame, p: nat, k: nat): nat
    requires Valid(subset) && Valid(f) && HasColumns(f, subset.columns) && k <= subset.nrows && p < f.nrows
  {
    if k == 0 then 0
    else MatchCount(subset, f, p, k - 1) + Hit(subset, f, p, k - 1)
  }

  /** One when population row `p` has the key of subset row `s`, else zero. */
  function Hit(subset: Frame, f: Frame, p: nat, s: nat): nat
    requires Valid(subset) && Valid(f) && HasColumns(f, subset.columns) && s < subset.nrows && p < f.nrows
  {
    if RowKey(f, subset.columns, p) == RowKey(subset, subset.columns, s) then 1 else 0
  }

  lemma {:induction false} CountConcat<T>(a: seq<T>, b: seq<T>, x: T)
    ensures Count(a + b, x) == Count(a, x) + Count(b, x)
  {
    if a == [] {
      assert a + b == b;
    } else {
      assert (a + b)[1..] == a[1..] + b;
      CountConcat(a[1..], b, x);
    }
  }

  lemma {:induction false} CountNoDup<T>(s: seq<T>, x: T)
    requires NoDup(s)
    ensures Count(s, x) == if x in s then 1 else 0
  {
    if s != [] {
      assert NoDup(s[1..]) by {
        forall i, j | 0 <= i < j < |s[1..]| ensures s[1..][i] != s[1..][j] {
          assert s[1..][i] == s[i + 1];
        }
      }
      CountNoDup(s[1..], x);
      if s[0] == x {
        assert x !in s[1..] by {
          forall k | 0 <= k < |s[1..]| ensures s[1..][k] != x { assert s[1..][k] == s[k + 1]; }
        }
      } else {
        assert x in s <==> x in s[1..] by {
          if x in s { var k :| 0 <= k < |s| && s[k] == x; assert s[1..][k - 1] == x; }
        }
      }
    }
  }

  /**
   * The inner join repeats each population row once per subset row it
   * matches: rows matching none disappear, and a duplicated subset row
   * duplicates its matches.
   */
  lemma {:induction false} JoinCount(subset: Frame, f: Frame, p: nat, k: nat)
    requires Valid(subset) && Valid(f) && HasColumns(f, subset.columns) && k <= subset.nrows && p < f.nrows
    ensures Count(JoinRows(subset, f, k), p) == MatchCount(subset, f, p, k)
  {
    if k > 0 {
      var j := k - 1;
      JoinCount(subset, f, p, j);
      JoinCountStep(subset, f, p, j);
    }
  }

  /**
   * Subset row `j` adds population row `p` once when their keys agree,
   * and otherwise not at all, so the count keeps up with the matches.
   */
  lemma JoinCountStep(subset: Frame, f: Frame, p: nat, j: nat)
    requires Valid(subset) && Valid(f) && HasColumns(f, subset.columns) && j < subset.nrows && p < f.nrows
    requires Count(JoinRows(subset, f, j), p) == MatchCount(subset, f, p, j)
    ensures Count(JoinRows(subset, f, j + 1), p) == MatchCount(subset, f, p, j + 1)
  {
    var m := Matching(subset, f, j);
    AppendDistinct(JoinRows(subset, f, j), m, p);
  }

  lemma AppendDistinct<T>(before: seq<T>, m: seq<T>, x: T)
    requires NoDup(m)
    ensures Count(before + m, x) == Count(before, x) + if x in m then 1 else 0
  {
    CountConcat(before, m, x);
    CountNoDup(m, x);
  }

  /** The frame holding the given rows of `f`, with all of its columns. */
  function TakeRows(f: Frame, rows: seq<nat>): (r: Frame)
    requires Valid(f) && forall t :: 0 <= t < |rows| ==> rows[t] < f.nrows
    ensures Valid(r) && r.columns == f.columns && r.nrows == |rows|
    ensures forall c :: c in r.data ==> c in f.data && r.data[c] == Column(f, c, rows)
  {
    Frame(f.columns, map c | c in f.data :: Column(f, c, rows), |rows|)
  }

  /** `subset.join(population, on=subset_columns, how="inner").select(*population_columns)`. */
  function InnerJoin(subset: Frame, f: Frame): (r: Result<Frame>)
    requires Valid(subset) && Valid(f)
    ensures r.Ok? <==> HasColumns(f, subset.columns)
    ensures r.Err? ==> r.error.kind == KeyError
    ensures r.Ok? ==> r.value == TakeRows(f, JoinRows(subset, f, subset.nrows))
  {
    var check := CheckColumns(f, subset.columns);
    if check.Fail? then Err(check.error)
    else Ok(TakeRows(f, JoinRows(subset, f, subset.nrows)))
  }

  // ---------------------------------------------------------------- the output table

  /** A row-major output table. */
  datatype Table = Table(columns: seq<string>, rows: seq<seq<Cell>>)

  datatype StrataArg = OneStratum(name: string) | StrataList(names: seq<string>)
  datatype FeaturesArg = InferFeatures | OneFeature(name: string) | FeatureList(names: seq<string>)

  function StrataNames(strata: StrataArg): seq<string>
  {
    match strata
    case OneStratum(name) => [name]
    case StrataList(names) => names
  }

  function FeatureNames(features: FeaturesArg, inferred: seq<string>): seq<string>
  {
    match features
    case InferFeatures => inferred
    case OneFeature(name) => [name]
    case FeatureList(names) => names
  }

  /** The leading output columns: the strata, then `Metadata_Object_Count` when counting. */
  function Leading(strata: seq<string>, countObjects: bool): seq<string>
  {
    strata + (if countObjects then ["Metadata_Object_Count"] else [])
  }

  /** The output row of one group, before any column is dropped. */
  function GroupRow(g: Frame, strata: seq<string>, features: seq<string>, op: string,
                    countObjects: bool, objectFeature: string, key: seq<Cell>): (row: seq<Cell>)
    requires Valid(g) && HasColumns(g, strata) && HasColumns(g, features) && op in AggregateOperations
    requires countObjects ==> objectFeature in g.data
    requires |key| == |strata|
    ensures |row| == |Leading(strata, countObjects)| + |features|
  {
    var rows := GroupRows(g, strata, key);
    var count := if countObjects then [Num(|NonNull(Column(g, objectFeature, rows))| as real)] else [];
    key + count + seq(|features|, j requires 0 <= j < |features| => AggregateCells(op, Column(g, features[j], rows)))
  }

  /** The grouped table: one row per distinct key, in ascending key order. */
  function Grouped(g: Frame, strata: seq<string>, features: seq<string>, op: string,
                   countObjects: bool, objectFeature: string): (t: Table)
    requires Valid(g) && Readable(g, strata, features, countObjects, objectFeature)
    requires op in AggregateOperations
    ensures t.columns == Leading(strata, countObjects) + features
    ensures |t.rows| == |GroupKeys(g, strata)|
  {
    var keys := GroupKeys(g, strata);
    Table(Leading(strata, countObjects) + features,
          seq(|keys|, k requires 0 <= k < |keys| => GroupRow(g, strata, features, op, countObjects, objectFeature, keys[k])))
  }

  function KeptAt(columns: seq<string>, dropped: seq<string>): nat -> bool
  {
    (j: nat) => j < |columns| && columns[j] !in dropped
  }

  predicate Increasing(s: seq<nat>)
  {
    forall a, b :: 0 <= a < b < |s| ==> s[a] < s[b]
  }

  lemma IncreasingTail(s: seq<nat>)
    requires s != [] && Increasing(s)
    ensures Increasing(s[1..]) && forall t :: 0 <= t < |s| - 1 ==> s[0] < s[1..][t]
  {
    forall a, b | 0 <= a < b < |s| - 1 ensures s[1..][a] < s[1..][b] {
      assert s[1..][a] == s[a + 1] && s[1..][b] == s[b + 1];
    }
    forall t | 0 <= t < |s| - 1 ensures s[0] < s[1..][t] {
      assert s[1..][t] == s[t + 1];
    }
  }

  lemma IncreasingCons(x: nat, s: seq<nat>)
    requires Increasing(s) && forall t :: 0 <= t < |s| ==> x < s[t]
    ensures Increasing([x] + s)
  {
    var r := [x] + s;
    forall a, b | 0 <= a < b < |r| ensures r[a] < r[b] {
      assert r[b] == s[b - 1];
      if a > 0 {
        assert r[a] == s[a - 1];
      }
    }
  }

  /** Filtering keeps a strictly increasing sequence strictly increasing. */
  lemma {:induction false} FilterIncreasing(s: seq<nat>, p: nat -> bool)
    requires Increasing(s)
    ensures Increasing(Filter(s, p))
  {
    if s != [] {
      IncreasingTail(s);
      FilterIncreasing(s[1..], p);
      var rest := Filter(s[1..], p);
      if p(s[0]) {
        forall t | 0 <= t < |rest| ensures s[0] < rest[t] {
          var j :| 0 <= j < |s[1..]| && s[1..][j] == rest[t];
        }
        IncreasingCons(s[0], rest);
      }
    }
  }

  /** The positions of the columns that are kept, in their order. */
  function KeptPositions(columns: seq<string>, dropped: seq<string>): (r: seq<nat>)
    ensures forall t :: 0 <= t < |r| ==> r[t] < |columns| && columns[r[t]] !in dropped
    ensures forall j :: 0 <= j < |columns| && columns[j] !in dropped ==> j in r
    ensures Increasing(r)
  {
    var all := Range(|columns|);
    var r := Filter(all, KeptAt(columns, dropped));
    assert forall t :: 0 <= t < |r| ==> r[t] in all;
    forall j | 0 <= j < |columns| && columns[j] !in dropped ensures j in r {
      assert all[j] == j;
    }
    FilterIncreasing(all, KeptAt(columns, dropped));
    assert Increasing(r);
    r
  }

  /** With nothing to drop, every position is kept. */
  lemma {:induction false} AllPositionsKept(columns: seq<string>, dropped: seq<string>)
    requires forall j :: 0 <= j < |columns| ==> columns[j] !in dropped
    ensures KeptPositions(columns, dropped) == Range(|columns|)
  {
    FilterAll(Range(|columns|), KeptAt(columns, dropped));
  }

  const NumberColumns: seq<string> := ["ImageNumber", "ObjectNumber"]

  /**
   * Removes the columns named `ImageNumber` or `ObjectNumber`, with their
   * cells; the other columns keep their order and their cells.
   */
  function DropNumberColumns(t: Table): (r: Table)
    requires forall i :: 0 <= i < |t.rows| ==> |t.rows[i]| == |t.columns|
    ensures forall i :: 0 <= i < |r.columns| ==> r.columns[i] !in NumberColumns
    ensures forall c :: c in t.columns && c !in NumberColumns ==> c in r.columns
    ensures |r.rows| == |t.rows|
    ensures forall i :: 0 <= i < |r.rows| ==> |r.rows[i]| == |r.columns|
    ensures var keep := KeptPositions(t.columns, NumberColumns);
      |r.columns| == |keep| && (forall k :: 0 <= k < |keep| ==> r.columns[k] == t.columns[keep[k]])
      && forall i, k :: 0 <= i < |r.rows| && 0 <= k < |keep| ==> r.rows[i][k] == t.rows[i][keep[k]]
  {
    var keep := KeptPositions(t.columns, NumberColumns);
    var columns := Pick(t.columns, keep);
    forall c | c in t.columns && c !in NumberColumns ensures c in columns {
      var j :| 0 <= j < |t.columns| && t.columns[j] == c;
      var k :| 0 <= k < |keep| && keep[k] == j;
      assert columns[k] == c;
    }
    Table(columns, seq(|t.rows|, i requires 0 <= i < |t.rows| => Pick(t.rows[i], keep)))
  }

  /** The elements at the given positions, in the order of the positions. */
  function Pick<T>(s: seq<T>, positions: seq<nat>): (r: seq<T>)
    requires forall k :: 0 <= k < |positions| ==> positions[k] < |s|
    ensures |r| == |positions| && forall k :: 0 <= k < |positions| ==> r[k] == s[positions[k]]
  {
    seq(|positions|, k requires 0 <= k < |positions| => s[positions[k]])
  }

  /** A table without number columns is left as it is. */
  lemma {:induction false} NoNumberColumnsDropped(t: Table)
    requires forall i :: 0 <= i < |t.rows| ==> |t.rows[i]| == |t.columns|
    requires forall j :: 0 <= j < |t.columns| ==> t.columns[j] !in NumberColumns
    ensures DropNumberColumns(t) == t
  {
    AllPositionsKept(t.columns, NumberColumns);
    var r := DropNumberColumns(t);
    assert r.columns == t.columns;
    forall i | 0 <= i < |t.rows| ensures r.rows[i] == t.rows[i] {
    }
    assert r.rows == t.rows;
  }

  /** The rows aggregated: the population, restricted by the subset join when one is given. */
  function Population(f: Frame, subset: Option<Frame>): (r: Result<Frame>)
    requires Valid(f) && (subset.Some? ==> Valid(subset.value))
    ensures r.Ok? ==> Valid(r.value) && r.value.columns == f.columns
    ensures subset.None? ==> r == Ok(f)
  {
    if subset.Some? then InnerJoin(subset.value, f) else Ok(f)
  }

  /** The columns `aggregate` reads. */
  function Needed(strata: seq<string>, features: seq<string>, countObjects: bool, objectFeature: string): seq<string>
  {
    strata + features + (if countObjects then [objectFeature] else [])
  }

  predicate Readable(g: Frame, strata: seq<string>, features: seq<string>, countObjects: bool, objectFeature: string)
  {
    HasColumns(g, strata) && HasColumns(g, features) && (countObjects ==> objectFeature in g.data)
  }

  lemma NeededColumns(g: Frame, strata: seq<string>, features: seq<string>, countObjects: bool, objectFeature: string)
    ensures HasColumns(g, Needed(strata, features, countObjects, objectFeature))
        <==> Readable(g, strata, features, countObjects, objectFeature)
  {
    var needed := Needed(strata, features, countObjects, objectFeature);
    assert forall i :: 0 <= i < |strata| ==> strata[i] == needed[i];
    assert forall i :: 0 <= i < |features| ==> features[i] == needed[|strata| + i];
    assert countObjects ==> objectFeature == needed[|strata| + |features|];
  }

  /** `aggregate`, from the operation check to the final column drop. */
  function AggregateProfiles(f: Frame, strata: StrataArg, features: FeaturesArg, inferred: seq<string>,
                             operation: string, countObjects: bool, objectFeature: string,
                             subset: Option<Frame>): (r: Result<Table>)
    requires Valid(f) && (subset.Some? ==> Valid(subset.value))
    ensures CheckAggregateOperation(operation).Err? ==> r == Err(CheckAggregateOperation(operation).error)
    ensures r.Ok? <==> (CheckAggregateOperation(operation).Ok? && Population(f, subset).Ok?
      && Readable(Population(f, subset).value, StrataNames(strata), FeatureNames(features, inferred),
                  countObjects, objectFeature)
      && Castable(Population(f, subset).value, FeatureNames(features, inferred)))
    ensures r.Ok? ==> forall i :: 0 <= i < |r.value.columns| ==> r.value.columns[i] !in NumberColumns
    ensures r.Ok? ==> r.value == CastGrouped(Population(f, subset).value, StrataNames(strata),
        FeatureNames(features, inferred), Lower(operation), countObjects, objectFeature)
  {
    var op :- CheckAggregateOperation(operation);
    var g :- Population(f, subset);
    GroupPopulation(g, StrataNames(strata), FeatureNames(features, inferred), op, countObjects, objectFeature)
  }

  /** The grouped table of the population with its features cast, the number columns dropped. */
  function CastGrouped(g: Frame, strata: seq<string>, features: seq<string>, op: string,
                       countObjects: bool, objectFeature: string): (t: Table)
    requires Valid(g) && Readable(g, strata, features, countObjects, objectFeature) && Castable(g, features)
    requires op in AggregateOperations
    ensures forall i :: 0 <= i < |t.columns| ==> t.columns[i] !in NumberColumns
  {
    var cast := CastFeatures(g, features).value;
    assert Readable(cast, strata, features, countObjects, objectFeature);
    DropNumberColumns(Grouped(cast, strata, features, op, countObjects, objectFeature))
  }

  /**
   * When no stratum and no feature is named `ImageNumber` or `ObjectNumber`,
   * nothing is dropped: the result is the grouped table of the cast frame,
   * so `GroupedRow`, `EveryRowInOneGroup` and `GroupedRowsSorted` describe
   * it.
   */
  lemma {:induction false} CastGroupedIsGrouped(g: Frame, strata: seq<string>, features: seq<string>, op: string,
                                                countObjects: bool, objectFeature: string)
    requires Valid(g) && Readable(g, strata, features, countObjects, objectFeature) && Castable(g, features)
    requires op in AggregateOperations
    requires forall j :: 0 <= j < |strata| ==> strata[j] !in NumberColumns
    requires forall j :: 0 <= j < |features| ==> features[j] !in NumberColumns
    ensures CastFeatures(g, features).Ok?
    ensures var cast := CastFeatures(g, features).value;
      Valid(cast) && Readable(cast, strata, features, countObjects, objectFeature) &&
      CastGrouped(g, strata, features, op, countObjects, objectFeature)
        == Grouped(cast, strata, features, op, countObjects, objectFeature)
  {
    var cast := CastFeatures(g, features).value;
    assert Readable(cast, strata, features, countObjects, objectFeature);
    var t := Grouped(cast, strata, features, op, countObjects, objectFeature);
    assert t.columns == Leading(strata, countObjects) + features;
    NoNumberColumnsDropped(t);
  }

  /**
   * Grouping a population: its columns are read first, the features are
   * cast to `Float64`, then grouped and the number columns dropped.
   */
  function GroupPopulation(g: Frame, strata: seq<string>, features: seq<string>, op: string,
                           countObjects: bool, objectFeature: string): (r: Result<Table>)
    requires Valid(g) && op in AggregateOperations
    ensures r.Ok? <==> Readable(g, strata, features, countObjects, objectFeature) && Castable(g, features)
    ensures !Readable(g, strata, features, countObjects, objectFeature) ==> r.Err? && r.error.kind == KeyError
    ensures Readable(g, strata, features, countObjects, objectFeature) && !Castable(g, features) ==>
      r.Err? && r.error.kind == ValueError
    ensures r.Ok? ==> r.value == CastGrouped(g, strata, features, op, countObjects, objectFeature)
  {
    var check := CheckColumns(g, Needed(strata, features, countObjects, objectFeature));
    NeededColumns(g, strata, features, countObjects, objectFeature);
    if check.Fail? then Err(check.error)
    else
      var cast :- CastFeatures(g, features);
      Ok(DropNumberColumns(Grouped(cast, strata, features, op, countObjects, objectFeature)))
  }

  /**
   * Row `k` of the grouped table: the `k`-th key, the group's object count
   * when requested, then each feature aggregated over the group's rows.
   */
  lemma GroupedRow(g: Frame, strata: seq<string>, features: seq<string>, op: string,
                   countObjects: bool, objectFeature: string, k: nat)
    requires Valid(g) && Readable(g, strata, features, countObjects, objectFeature)
    requires op in AggregateOperations
    requires k < |GroupKeys(g, strata)|
    ensures var t := Grouped(g, strata, features, op, countObjects, objectFeature);
      var key := GroupKeys(g, strata)[k];
      var rows := GroupRows(g, strata, key);
      var lead := |Leading(strata, countObjects)|;
      |t.rows[k]| == lead + |features|
      && t.rows[k][..|strata|] == key
      && (countObjects ==> t.rows[k][|strata|] == Num(|NonNull(Column(g, objectFeature, rows))| as real))
      && forall j :: 0 <= j < |features| ==> t.rows[k][lead + j] == AggregateCells(op, Column(g, features[j], rows))
  {
  }

  /** Every input row, null keys included, falls in exactly one output group. */
  lemma EveryRowInOneGroup(g: Frame, strata: seq<string>, features: seq<string>, op: string,
                           countObjects: bool, objectFeature: string, i: nat)
    requires Valid(g) && Readable(g, strata, features, countObjects, objectFeature)
    requires op in AggregateOperations
    requires i < g.nrows
    ensures var t := Grouped(g, strata, features, op, countObjects, objectFeature);
      exists k :: 0 <= k < |t.rows| && t.rows[k][..|strata|] == RowKey(g, strata, i)
        && (forall k2 :: 0 <= k2 < |t.rows| && t.rows[k2][..|strata|] == RowKey(g, strata, i) ==> k2 == k)
        && i in GroupRows(g, strata, RowKey(g, strata, i))
  {
    var keys := GroupKeys(g, strata);
    var key := RowKey(g, strata, i);
    assert key in keys;
    var k :| 0 <= k < |keys| && keys[k] == key;
    GroupedRow(g, strata, features, op, countObjects, objectFeature, k);
    forall k2 | 0 <= k2 < |keys| && Grouped(g, strata, features, op, countObjects, objectFeature).rows[k2][..|strata|] == key
      ensures k2 == k
    {
      GroupedRow(g, strata, features, op, countObjects, objectFeature, k2);
    }
  }

  /** The output rows are in strictly ascending strata order. */
  lemma GroupedRowsSorted(g: Frame, strata: seq<string>, features: seq<string>, op: string,
                          countObjects: bool, objectFeature: string, k1: nat, k2: nat)
    requires Valid(g) && Readable(g, strata, features, countObjects, objectFeature)
    requires op in AggregateOperations
    requires k1 < k2 < |GroupKeys(g, strata)|
    ensures var t := Grouped(g, strata, features, op, countObjects, objectFeature);
      KeyLess(t.rows[k1][..|strata|], t.rows[k2][..|strata|])
  {
    GroupedRow(g, strata, features, op, countObjects, objectFeature, k1);
    GroupedRow(g, strata, features, op, countObjects, objectFeature, k2);
    SortedDistinctKeysIncrease(GroupKeys(g, strata), k1, k2);
  }

  /** The object count of a group never exceeds the group's size. */
  lemma ObjectCountBounded(g: Frame, strata: seq<string>, objectFeature: string, key: seq<Cell>)
    requires Valid(g) && HasColumns(g, strata) && objectFeature in g.data
    ensures |NonNull(Column(g, objectFeature, GroupRows(g, strata, key)))| <= |GroupRows(g, strata, key)|
  {
  }
}
