/**
 * The SQL text and frame plumbing of the SQLite-to-parquet conversion:
 * chunks of distinct join-key rows, the SELECT/WHERE statement run per table
 * and chunk, `nan_data_fill`, the column-union loop of
 * `table_concat_to_parquet`, and the unique parquet file name.
 *
 * The database is a parameter: `answer(statement)` is the table the SQL
 * statement returns. A row of join keys is a sequence of (key, value) pairs
 * in the order the query returned them, each value as Python formats it.
 */
module SqliteConvert {
  import opened Wrappers
  import opened Seqs
  import opened Strings
  import opened Frames

  type Record = seq<(string, string)>

  /** One entry of the column metadata collected from the database. */
  datatype ColumnInfo = ColumnInfo(table: string, column: string)

  // --------------------------------------------------------------- chunking

  /** The query of `sql_select_distinct_join_chunks`, triple-quoted with its newlines and indentation. */
  function DistinctQuery(joinKeys: seq<string>, table: string): string
  {
    "\n    select distinct " + Join(joinKeys, ", ") + " from " + table + "\n    "
  }

  const ZeroStep: string := "range() arg 3 must not be zero"

  /**
   * `[rows[i:i + chunk_size] for i in range(0, len(rows), chunk_size)]` over
   * the distinct rows the query returned.
   */
  function DistinctJoinChunks(rows: seq<Record>, chunkSize: int): (r: Result<seq<seq<Record>>>)
    ensures chunkSize == 0 <==> r.Err?
    ensures chunkSize == 0 ==> r == Raise(ValueError, ZeroStep)
    ensures chunkSize < 0 ==> r == Ok([])
    ensures chunkSize > 0 ==> r.Ok? && Flatten(r.value) == rows
    ensures chunkSize > 0 ==> forall i :: 0 <= i < |r.value| ==> 1 <= |r.value[i]| <= chunkSize
    ensures chunkSize > 0 ==> forall i :: 0 <= i < |r.value| - 1 ==> |r.value[i]| == chunkSize
  {
    if chunkSize == 0 then Raise(ValueError, ZeroStep)
    else if chunkSize < 0 then Ok([])
    else
      ChunksFlatten(rows, chunkSize);
      Ok(Chunks(rows, chunkSize))
  }

  /** There are ceil(rows / chunk_size) chunks, and chunk i is the slice starting at i * chunk_size. */
  lemma DistinctJoinChunksAt(rows: seq<Record>, chunkSize: int, i: nat)
    requires chunkSize > 0
    ensures var k := |DistinctJoinChunks(rows, chunkSize).value|; (k - 1) * chunkSize < |rows| <= k * chunkSize
    ensures i < |DistinctJoinChunks(rows, chunkSize).value| ==>
      i * chunkSize < |rows|
      && DistinctJoinChunks(rows, chunkSize).value[i] == rows[i * chunkSize..Clip((i + 1) * chunkSize, |rows|)]
  {
    ChunksCount(rows, chunkSize);
    if i < |Chunks(rows, chunkSize)| {
      ChunkAt(rows, chunkSize, i);
    }
  }

  // ----------------------------------------------------------- the statement

  /** The columns the metadata lists for `table`, in metadata order. */
  function TableColumns(table: string, columnData: seq<ColumnInfo>): (r: seq<string>)
    ensures |r| <= |columnData|
    ensures forall c :: c in r <==> ColumnInfo(table, c) in columnData
  {
    if columnData == [] then []
    else
      var rest := TableColumns(table, columnData[1..]);
      assert forall x :: x in columnData <==> x == columnData[0] || x in columnData[1..];
      if columnData[0].table == table then [columnData[0].column] + rest else rest
  }

  /** One item of the select list: aliased to `Table_col` unless exempt. */
  function SelectItem(table: string, avoid: seq<string>, c: string): string
  {
    if c !in avoid then c + " as '" + table + "_" + c + "'" else c
  }

  /** The SELECT part of `sql_table_to_pd_dataframe`. */
  function SelectStatement(table: string, prepend: bool, avoid: seq<string>, columnData: seq<ColumnInfo>): string
  {
    if prepend then
      var cols := TableColumns(table, columnData);
      "select " + Join(seq(|cols|, i requires 0 <= i < |cols| => SelectItem(table, avoid, cols[i])), ",") + " from " + table
    else "select * from " + table
  }

  /** `key = 'val'` for one join key. */
  function Equality(kv: (string, string)): string
  {
    kv.0 + " = '" + kv.1 + "'"
  }

  /** The parenthesised AND-list of one row of join keys. */
  function Group(rec: Record): string
  {
    "(" + Join(seq(|rec|, i requires 0 <= i < |rec| => Equality(rec[i])), " AND ") + ")"
  }

  /** The OR-list of the groups of a chunk. */
  function WhereClause(chunk: seq<Record>): string
  {
    Join(seq(|chunk|, i requires 0 <= i < |chunk| => Group(chunk[i])), " OR ")
  }

  /** The whole statement. */
  function Statement(table: string, prepend: bool, avoid: seq<string>, chunk: seq<Record>,
                     columnData: seq<ColumnInfo>): string
  {
    SelectStatement(table, prepend, avoid, columnData) + " where " + WhereClause(chunk)
  }

  /** The name a select item gives its column in the result. */
  function ResultName(table: string, avoid: seq<string>, c: string): string
  {
    if c in avoid then c else table + "_" + c
  }

  /** The columns the statement returns: aliases with prepend, the table's own columns without. */
  function ResultColumns(table: string, prepend: bool, avoid: seq<string>, columnData: seq<ColumnInfo>): (r: seq<string>)
    ensures !prepend ==> r == TableColumns(table, columnData)
    ensures |r| == |TableColumns(table, columnData)|
  {
    var cols := TableColumns(table, columnData);
    if prepend then seq(|cols|, i requires 0 <= i < |cols| => ResultName(table, avoid, cols[i])) else cols
  }

  /**
   * The aliases never collide when the table's columns are distinct and none
   * of them already starts with `Table_`: an exempt column cannot look like
   * an alias, and two aliases differ where their columns do.
   */
  lemma ResultColumnsDistinct(table: string, prepend: bool, avoid: seq<string>, columnData: seq<ColumnInfo>)
    requires NoDup(TableColumns(table, columnData))
    requires forall c :: c in TableColumns(table, columnData) ==> !StartsWith(c, table + "_")
    ensures NoDup(ResultColumns(table, prepend, avoid, columnData))
  {
    var cols := TableColumns(table, columnData);
    var r := ResultColumns(table, prepend, avoid, columnData);
    if prepend {
      forall i, j | 0 <= i < j < |r| ensures r[i] != r[j] {
        var a, b := cols[i], cols[j];
        assert a != b;
        assert a in cols && b in cols;
        var p := table + "_";
        if a !in avoid && b !in avoid {
          assert r[i] == p + a && r[j] == p + b;
          assert (p + a)[|p|..] == a && (p + b)[|p|..] == b;
        } else if a !in avoid {
          assert r[i] == p + a && r[j] == b;
          assert (p + a)[..|p|] == p;
          assert !StartsWith(b, p);
        } else if b !in avoid {
          assert r[i] == a && r[j] == p + b;
          assert (p + b)[..|p|] == p;
          assert !StartsWith(a, p);
        }
      }
    }
  }

  /** The OR-list grows by one group per row: a later row is appended after " OR ". */
  lemma WhereClauseSnoc(chunk: seq<Record>, rec: Record)
    ensures WhereClause([rec]) == Group(rec)
    ensures chunk != [] ==> WhereClause(chunk + [rec]) == WhereClause(chunk) + " OR " + Group(rec)
  {
    var g := seq(|chunk|, i requires 0 <= i < |chunk| => Group(chunk[i]));
    var h := seq(|chunk| + 1, i requires 0 <= i < |chunk| + 1 => Group((chunk + [rec])[i]));
    assert h == g + [Group(rec)];
    assert seq(1, i requires 0 <= i < 1 => Group([rec][i])) == [Group(rec)];
    if chunk != [] {
      JoinSnoc(g, Group(rec), " OR ");
    }
  }

  // ----------------------------------------------------------- nan_data_fill

  /** A frame together with the dtype name of each column. */
  datatype Table = Table(frame: Frame, dtypes: map<string, string>)

  /**
   * Every listed column has cells and a dtype, and every column with cells
   * is listed and has one cell per row. Distinct column names are kept
   * apart (`NanDataFillDistinct`), so that the fill can be stated without them.
   */
  predicate TableValid(t: Table)
  {
    (forall c :: c in t.frame.columns ==> c in t.frame.data)
    && (forall c :: c in t.frame.data ==> c in t.frame.columns && |t.frame.data[c]| == t.frame.nrows)
    && t.dtypes.Keys == t.frame.data.Keys
  }

  /** The integer dtypes, which cannot hold `NaN`. */
  const IntegerDtypes: set<string> := {"int8", "int16", "int32", "int64", "uint8", "uint16", "uint32", "uint64"}

  /** The dtype of a filled column as written: `str(dtype).replace("int64", "float64")`. */
  function FillDtypeAsWritten(d: string): string
  {
    Replace(d, "int64", "float64")
  }

  /** The evidently intended dtype of a filled column: every integer dtype widened to float64. */
  function FillDtype(d: string): (r: string)
    ensures r !in IntegerDtypes
    ensures d !in IntegerDtypes ==> r == d
  {
    if d in IntegerDtypes then "float64" else d
  }

  /** The two agree on int64 itself. */
  lemma FillDtypeInt64()
    ensures FillDtypeAsWritten("int64") == FillDtype("int64") == "float64"
  {
    var s := "int64";
    assert OccursAt(s, "int64", 0);
    assert s[5..] == [];
  }

  /**
   * As written, "uint64" becomes "ufloat64", which is no dtype, so building
   * the filled column raises `TypeError`. "int32" keeps its integer name,
   * but pandas builds a NaN-filled column of an integer dtype as float64
   * when the frame has rows, so that case only differs from the intended
   * one in the name.
   */
  lemma FillDtypeOtherIntegers()
    ensures FillDtypeAsWritten("uint64") == "ufloat64" && FillDtype("uint64") == "float64"
    ensures FillDtypeAsWritten("int32") == "int32" && "int32" in IntegerDtypes && FillDtype("int32") == "float64"
  {
    var u := "uint64";
    assert u[0..5][0] == 'u';
    assert !OccursAt(u, "int64", 0);
    assert OccursAt(u, "int64", 1);
    assert u[1..] == "int64";
    assert OccursAt(u[1..], "int64", 0);
    assert Find(u, "int64") == Some(1);
    assert u[6..] == [];
    var t := "int32";
    assert t[4] != '6';
    forall j | 0 <= j && j + 5 <= |t| ensures !OccursAt(t, "int64", j) {
      assert t[j..j + 5][3] == t[j + 3];
    }
    FindNone(t, "int64");
  }

  /** The columns of `from` that `into` lacks, in `from` order. */
  function AbsentColumns(into: Table, from: Table): (r: seq<string>)
    ensures forall c :: c in r <==> c in from.frame.columns && c !in into.frame.columns
    ensures NoDup(from.frame.columns) ==> NoDup(r)
  {
    var r := Filter(from.frame.columns, NotIn(into.frame.columns));
    forall c ensures c in r <==> c in from.frame.columns && c !in into.frame.columns {
      FilterMember(from.frame.columns, NotIn(into.frame.columns), c);
    }
    assert NoDup(from.frame.columns) ==> NoDup(r) by {
      if NoDup(from.frame.columns) {
        FilterNoDup(from.frame.columns, NotIn(into.frame.columns));
      }
    }
    r
  }

  function NullColumn(n: nat): (r: seq<Cell>)
    ensures |r| == n && forall i :: 0 <= i < n ==> r[i] == Null
  {
    seq(n, _ => Null)
  }

  /**
   * The new columns appended one by one after those of `t`: each all
   * missing, with the widened form of its dtype in `fromDtypes`.
   */
  function AppendNullColumns(t: Table, cols: seq<string>, fromDtypes: map<string, string>): (r: Table)
    requires TableValid(t)
    requires forall c :: c in cols ==> c in fromDtypes
    ensures TableValid(r)
    ensures r.frame.columns == t.frame.columns + cols && r.frame.nrows == t.frame.nrows
    ensures forall c :: c in r.frame.data <==> c in t.frame.data || c in cols
    decreases |cols|
  {
    if cols == [] then t
    else
      var init, c := cols[..|cols| - 1], cols[|cols| - 1];
      assert forall x :: x in init ==> x in cols;
      var before := AppendNullColumns(t, init, fromDtypes);
      AppendLast(t.frame.columns, cols);
      var r := Table(Frame(before.frame.columns + [c], before.frame.data[c := NullColumn(t.frame.nrows)], t.frame.nrows),
                     before.dtypes[c := FillDtype(fromDtypes[c])]);
      r
  }

  /** The columns kept from `t` keep their cells and dtype; every appended one is all missing. */
  lemma {:induction false} AppendNullColumnsCells(t: Table, cols: seq<string>, fromDtypes: map<string, string>, c: string)
    requires TableValid(t)
    requires forall c :: c in cols ==> c in fromDtypes && c !in t.frame.data
    ensures var r := AppendNullColumns(t, cols, fromDtypes);
      (c in t.frame.data ==> r.frame.data[c] == t.frame.data[c] && r.dtypes[c] == t.dtypes[c])
      && (c in cols ==> r.frame.data[c] == NullColumn(t.frame.nrows) && r.dtypes[c] == FillDtype(fromDtypes[c]))
    decreases |cols|
  {
    if cols != [] {
      var init := cols[..|cols| - 1];
      AppendLast([], cols);
      assert forall x :: x in init ==> x in cols;
      AppendNullColumnsCells(t, init, fromDtypes, c);
    }
  }

  /**
   * `nan_data_fill(fill_into, fill_from)`: the columns of `fill_from` that
   * `fill_into` lacks are appended after its own, and the row count stays;
   * `NanDataFillCells` says what the cells and dtypes become.
   */
  function NanDataFill(into: Table, from: Table): (r: Table)
    requires TableValid(into) && TableValid(from)
    ensures TableValid(r)
    ensures r.frame.columns == into.frame.columns + AbsentColumns(into, from)
    ensures r.frame.nrows == into.frame.nrows
    ensures r.frame.data.Keys == into.frame.data.Keys + from.frame.data.Keys
  {
    var r := AppendNullColumns(into, AbsentColumns(into, from), from.dtypes);
    assert r.frame.data.Keys == into.frame.data.Keys + from.frame.data.Keys;
    r
  }

  /**
   * Existing columns keep their cells and dtype; every added column is all
   * missing, with its dtype made able to hold NaN.
   */
  lemma NanDataFillCells(into: Table, from: Table, c: string)
    requires TableValid(into) && TableValid(from)
    ensures var r := NanDataFill(into, from);
      (c in into.frame.data ==> r.frame.data[c] == into.frame.data[c] && r.dtypes[c] == into.dtypes[c])
      && (c in from.frame.data && c !in into.frame.data ==>
            r.frame.data[c] == NullColumn(into.frame.nrows) && r.dtypes[c] == FillDtype(from.dtypes[c]))
  {
    AppendNullColumnsCells(into, AbsentColumns(into, from), from.dtypes, c);
  }

  /** The columns `nan_data_fill` adds whose dtype the as-written replacement turns into "ufloat64". */
  predicate AddsUnsigned64(into: Table, from: Table)
    requires TableValid(from)
  {
    exists c :: c in AbsentColumns(into, from) && from.dtypes[c] == "uint64"
  }

  /**
   * `nan_data_fill` as written: adding a `uint64` column asks pandas for the
   * dtype "ufloat64" and raises `TypeError`; otherwise the fill is the one
   * `NanDataFill` describes.
   */
  function NanDataFillAsWritten(into: Table, from: Table): (r: Result<Table>)
    requires TableValid(into) && TableValid(from)
    ensures r.Err? <==> AddsUnsigned64(into, from)
    ensures r.Err? ==> r.error.kind == TypeError
    ensures r.Ok? ==> r.value == NanDataFill(into, from)
  {
    if AddsUnsigned64(into, from) then Raise(TypeError, "data type 'ufloat64' not understood")
    else Ok(NanDataFill(into, from))
  }

  /** As written, filling from a table with an unsigned 64-bit column the other lacks fails. */
  lemma UnsignedFillFails(into: Table, from: Table, c: string)
    requires TableValid(into) && TableValid(from)
    requires c in from.frame.columns && c !in into.frame.columns && from.dtypes[c] == "uint64"
    ensures NanDataFillAsWritten(into, from).Err?
    ensures FillDtypeAsWritten(from.dtypes[c]) == "ufloat64"
  {
    assert c in AbsentColumns(into, from);
    FillDtypeOtherIntegers();
  }

  /** Filling keeps the column names distinct when both tables had distinct names. */
  lemma NanDataFillDistinct(into: Table, from: Table)
    requires TableValid(into) && TableValid(from)
    requires NoDup(into.frame.columns) && NoDup(from.frame.columns)
    ensures NoDup(NanDataFill(into, from).frame.columns)
  {
    NoDupConcat(into.frame.columns, AbsentColumns(into, from));
  }

  // --------------------------------------------------- the column-union loop

  /** `pd.concat([a, b])` of two frames with the same columns: rows of `a`, then rows of `b`, in `a`'s column order. */
  function ConcatRows(a: Table, b: Table, promote: (string, string) -> string): (r: Table)
    requires TableValid(a) && TableValid(b) && a.frame.data.Keys == b.frame.data.Keys
    ensures TableValid(r)
    ensures r.frame.columns == a.frame.columns && r.frame.nrows == a.frame.nrows + b.frame.nrows
    ensures forall c :: c in r.frame.data ==> r.frame.data[c] == a.frame.data[c] + b.frame.data[c]
  {
    Table(Frame(a.frame.columns, map c | c in a.frame.data :: a.frame.data[c] + b.frame.data[c],
                a.frame.nrows + b.frame.nrows),
          map c | c in a.dtypes :: promote(a.dtypes[c], b.dtypes[c]))
  }

  /** Filling each table from the other gives both the same columns. */
  lemma FillsAgree(acc: Table, next: Table)
    requires TableValid(acc) && TableValid(next)
    ensures NanDataFill(acc, next).frame.data.Keys == NanDataFill(next, acc).frame.data.Keys
  {
  }

  /** Both tables filled from each other's original, then stacked. */
  function Stacked(acc: Table, next: Table, promote: (string, string) -> string): (r: Table)
    requires TableValid(acc) && TableValid(next)
    ensures TableValid(r)
  {
    FillsAgree(acc, next);
    ConcatRows(NanDataFill(acc, next), NanDataFill(next, acc), promote)
  }

  /**
   * One step of the loop: a running result without rows is replaced by the
   * next table; otherwise both are filled from each other and stacked.
   */
  function Step(acc: Table, next: Table, promote: (string, string) -> string): (r: Table)
    requires TableValid(acc) && TableValid(next)
    ensures TableValid(r)
    ensures acc.frame.nrows == 0 ==> r == next
  {
    if acc.frame.nrows == 0 then next else Stacked(acc, next, promote)
  }

  /** A step after rows were read stacks all rows, over the union of the columns, the new ones after the old. */
  lemma StepStacks(acc: Table, next: Table, promote: (string, string) -> string)
    requires TableValid(acc) && TableValid(next) && acc.frame.nrows > 0
    ensures var r := Step(acc, next, promote);
      r.frame.nrows == acc.frame.nrows + next.frame.nrows
      && r.frame.data.Keys == acc.frame.data.Keys + next.frame.data.Keys
      && r.frame.columns == acc.frame.columns + AbsentColumns(acc, next)
  {
    assert Step(acc, next, promote) == Stacked(acc, next, promote);
  }

  /** `pd.DataFrame()`. */
  const EmptyTable: Table := Table(Frame([], map[], 0), map[])

  ghost predicate AnswersValid(answer: string -> Table)
  {
    forall s :: TableValid(answer(s))
  }

  /** The frame read for one table: the database's answer to the statement for that table and chunk. */
  function Queried(table: string, prepend: bool, avoid: seq<string>, chunk: seq<Record>, columnData: seq<ColumnInfo>,
                   answer: string -> Table): Table
  {
    answer(Statement(table, prepend, avoid, chunk, columnData))
  }

  /** The running result after the tables in `tables`, in the order the set of table names is iterated. */
  function Concatenated(tables: seq<string>, prepend: bool, avoid: seq<string>, chunk: seq<Record>,
                        columnData: seq<ColumnInfo>, answer: string -> Table,
                        promote: (string, string) -> string): (r: Table)
    requires AnswersValid(answer)
    ensures TableValid(r)
    decreases |tables|
  {
    if tables == [] then EmptyTable
    else
      var acc := Concatenated(tables[..|tables| - 1], prepend, avoid, chunk, columnData, answer, promote);
      Step(acc, Queried(tables[|tables| - 1], prepend, avoid, chunk, columnData, answer), promote)
  }

  /** `to_unique_parquet`'s name: the prefix, "-", and the hex of a fresh UUID. */
  function UniqueParquetName(filename: string, uuidHex: string): (r: string)
    ensures StartsWith(r, filename + "-") && r[|filename| + 1..] == uuidHex
  {
    var r := filename + "-" + uuidHex;
    assert r[..|filename| + 1] == filename + "-";
    r
  }

  /** Two UUIDs give two names, whatever the prefix. */
  lemma UniqueParquetNamesDiffer(filename: string, u1: string, u2: string)
    requires u1 != u2
    ensures UniqueParquetName(filename, u1) != UniqueParquetName(filename, u2)
  {
  }

  /** `table_concat_to_parquet`: the loop over the tables, then the unique name of the file written. */
  method TableConcatToParquet(tables: seq<string>, prepend: bool, avoid: seq<string>, chunk: seq<Record>,
                              columnData: seq<ColumnInfo>, answer: string -> Table,
                              promote: (string, string) -> string, filename: string, uuidHex: string)
    returns (name: string, written: Table)
    requires AnswersValid(answer)
    ensures written == Concatenated(tables, prepend, avoid, chunk, columnData, answer, promote)
    ensures name == UniqueParquetName(filename, uuidHex)
  {
    var concatted := EmptyTable;
    for i := 0 to |tables|
      invariant TableValid(concatted)
      invariant concatted == Concatenated(tables[..i], prepend, avoid, chunk, columnData, answer, promote)
    {
      ConcatenatedSnoc(tables, i, prepend, avoid, chunk, columnData, answer, promote);
      var toConcat := answer(Statement(tables[i], prepend, avoid, chunk, columnData));
      assert TableValid(toConcat);
      concatted := ConcatOne(concatted, toConcat, promote);
    }
    assert tables[..|tables|] == tables;
    written := concatted;
    name := filename + "-" + uuidHex;
  }

  /** The body of the loop: the first table with rows is taken as it is, later ones are filled and stacked. */
  method ConcatOne(concatted: Table, toConcat: Table, promote: (string, string) -> string) returns (r: Table)
    requires TableValid(concatted) && TableValid(toConcat)
    ensures r == Step(concatted, toConcat, promote)
  {
    if concatted.frame.nrows == 0 {
      r := toConcat;
    } else {
      var filledConcatted := NanDataFill(concatted, toConcat);
      var filledToConcat := NanDataFill(toConcat, concatted);
      FillsAgree(concatted, toConcat);
      r := ConcatRows(filledConcatted, filledToConcat, promote);
    }
  }

  lemma ConcatenatedSnoc(tables: seq<string>, i: nat, prepend: bool, avoid: seq<string>, chunk: seq<Record>,
                         columnData: seq<ColumnInfo>, answer: string -> Table, promote: (string, string) -> string)
    requires AnswersValid(answer) && i < |tables|
    ensures Concatenated(tables[..i + 1], prepend, avoid, chunk, columnData, answer, promote)
      == Step(Concatenated(tables[..i], prepend, avoid, chunk, columnData, answer, promote),
              Queried(tables[i], prepend, avoid, chunk, columnData, answer), promote)
  {
    assert tables[..i + 1][..i] == tables[..i];
  }

  /** The rows every queried table contributes to the result. */
  function RowTotal(tables: seq<string>, prepend: bool, avoid: seq<string>, chunk: seq<Record>,
                    columnData: seq<ColumnInfo>, answer: string -> Table): nat
    decreases |tables|
  {
    if tables == [] then 0
    else RowTotal(tables[..|tables| - 1], prepend, avoid, chunk, columnData, answer)
         + Queried(tables[|tables| - 1], prepend, avoid, chunk, columnData, answer).frame.nrows
  }

  /** The columns of all queried tables. */
  function ColumnUnion(tables: seq<string>, prepend: bool, avoid: seq<string>, chunk: seq<Record>,
                       columnData: seq<ColumnInfo>, answer: string -> Table): set<string>
    decreases |tables|
  {
    if tables == [] then {}
    else ColumnUnion(tables[..|tables| - 1], prepend, avoid, chunk, columnData, answer)
         + Queried(tables[|tables| - 1], prepend, avoid, chunk, columnData, answer).frame.data.Keys
  }

  /**
   * When every query returns rows, the result holds the rows of all of them
   * and exactly the union of their columns.
   */
  lemma {:induction false} ConcatenatedUnion(tables: seq<string>, prepend: bool, avoid: seq<string>, chunk: seq<Record>,
                                             columnData: seq<ColumnInfo>, answer: string -> Table,
                                             promote: (string, string) -> string)
    requires AnswersValid(answer)
    requires forall k :: 0 <= k < |tables| ==> Queried(tables[k], prepend, avoid, chunk, columnData, answer).frame.nrows > 0
    ensures var r := Concatenated(tables, prepend, avoid, chunk, columnData, answer, promote);
      r.frame.nrows == RowTotal(tables, prepend, avoid, chunk, columnData, answer)
      && r.frame.data.Keys == ColumnUnion(tables, prepend, avoid, chunk, columnData, answer)
    decreases |tables|
  {
    if tables != [] {
      var init := tables[..|tables| - 1];
      assert forall k :: 0 <= k < |init| ==> init[k] == tables[k];
      ConcatenatedUnion(init, prepend, avoid, chunk, columnData, answer, promote);
      var acc := Concatenated(init, prepend, avoid, chunk, columnData, answer, promote);
      var next := Queried(tables[|tables| - 1], prepend, avoid, chunk, columnData, answer);
      assert TableValid(next);
      if init != [] {
        assert init[|init| - 1] == tables[|init| - 1];
        assert acc.frame.nrows > 0;
        StepStacks(acc, next, promote);
      }
    }
  }

  /** A running result with no rows is replaced by the next table, whose columns alone survive. */
  lemma EmptyResultReplaced(tables: seq<string>, t: string, prepend: bool, avoid: seq<string>, chunk: seq<Record>,
                            columnData: seq<ColumnInfo>, answer: string -> Table, promote: (string, string) -> string)
    requires AnswersValid(answer)
    requires Concatenated(tables, prepend, avoid, chunk, columnData, answer, promote).frame.nrows == 0
    ensures Concatenated(tables + [t], prepend, avoid, chunk, columnData, answer, promote)
            == Queried(t, prepend, avoid, chunk, columnData, answer)
  {
    assert (tables + [t])[..|tables|] == tables;
  }
}
