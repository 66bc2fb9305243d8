/**
 * `left.merge(right, on=keys, how="left")` on row-major tables. Every left
 * row is kept, in order; it is repeated once per right row with the same key
 * (missing values match each other, as in pandas) and padded with missing
 * values when no right row matches. The right table's key columns are not
 * repeated in the output, and a non-key name both tables carry is kept twice,
 * as `<name>_x` from the left and `<name>_y` from the right.
 */
module Merge {
  import opened Seqs
  import opened Wrappers
  import opened Frames
  import opened Aggregate

  predicate WellFormed(t: Table)
  {
    forall i :: 0 <= i < |t.rows| ==> |t.rows[i]| == |t.columns|
  }

  predicate Keyed(t: Table, on: seq<string>)
  {
    forall j :: 0 <= j < |on| ==> on[j] in t.columns
  }

  /** The first key column missing from `t`. */
  function FirstMissing(t: Table, on: seq<string>): (r: Option<string>)
    ensures r.None? <==> Keyed(t, on)
    ensures r.Some? ==> r.value in on && r.value !in t.columns
  {
    if on == [] then None
    else if on[0] !in t.columns then Some(on[0])
    else
      var rest := FirstMissing(t, on[1..]);
      assert Keyed(t, on) <==> Keyed(t, on[1..]) by {
        forall j | 0 <= j < |on[1..]| ensures on[1..][j] == on[j + 1] { }
      }
      rest
  }

  /** The key of a row: its cells in the key columns, in key order. */
  function KeyOf(t: Table, on: seq<string>, row: seq<Cell>): (k: seq<Cell>)
    requires Keyed(t, on) && |row| == |t.columns|
    ensures |k| == |on| && forall j :: 0 <= j < |on| ==> k[j] == row[IndexOf(t.columns, on[j])]
  {
    seq(|on|, j requires 0 <= j < |on| => row[IndexOf(t.columns, on[j])])
  }

  /** The right rows whose key is `key`, in row order. */
  function Matches(right: Table, on: seq<string>, key: seq<Cell>): (r: seq<nat>)
    requires WellFormed(right) && Keyed(right, on)
    ensures forall t :: 0 <= t < |r| ==> r[t] < |right.rows| && KeyOf(right, on, right.rows[r[t]]) == key
    ensures forall k :: 0 <= k < |right.rows| && KeyOf(right, on, right.rows[k]) == key ==> k in r
    ensures NoDup(r)
  {
    var all := Grouping.Range(|right.rows|);
    var p := (k: nat) => k < |right.rows| && KeyOf(right, on, right.rows[k]) == key;
    var r := Filter(all, p);
    FilterNoDup(all, p);
    assert forall t :: 0 <= t < |r| ==> r[t] in all;
    forall k | 0 <= k < |right.rows| && KeyOf(right, on, right.rows[k]) == key ensures k in r {
      assert all[k] == k;
    }
    r
  }

  /** The right columns added to the output: all but the keys. */
  function ExtraColumns(right: Table, on: seq<string>): (r: seq<string>)
    ensures forall c :: c in r <==> c in right.columns && c !in on
  {
    var pos := KeptPositions(right.columns, on);
    var r := seq(|pos|, p requires 0 <= p < |pos| => right.columns[pos[p]]);
    forall c | c in right.columns && c !in on ensures c in r {
      var j :| 0 <= j < |right.columns| && right.columns[j] == c;
      var p :| 0 <= p < |pos| && pos[p] == j;
      assert r[p] == c;
    }
    r
  }

  /** The cells of a right row in the added columns. */
  function Extra(right: Table, on: seq<string>, row: seq<Cell>): (r: seq<Cell>)
    requires |row| == |right.columns|
    ensures |r| == |ExtraColumns(right, on)|
  {
    var pos := KeptPositions(right.columns, on);
    seq(|pos|, p requires 0 <= p < |pos| => row[pos[p]])
  }

  function Nulls(n: nat): (r: seq<Cell>)
    ensures |r| == n && forall i :: 0 <= i < n ==> r[i] == Null
  {
    seq(n, i => Null)
  }

  /** A non-key name both tables carry; pandas suffixes both copies. */
  predicate Shared(left: Table, right: Table, on: seq<string>, c: string)
  {
    c !in on && c in left.columns && c in right.columns
  }

  function SuffixIf(c: string, shared: bool, suffix: string): string
  {
    if shared then c + suffix else c
  }

  /** The output column names: the left names, then the added right names, each shared one suffixed. */
  function MergedColumns(left: Table, right: Table, on: seq<string>): (r: seq<string>)
    ensures |r| == |left.columns| + |ExtraColumns(right, on)|
  {
    var extra := ExtraColumns(right, on);
    seq(|left.columns|, j requires 0 <= j < |left.columns| =>
          SuffixIf(left.columns[j], Shared(left, right, on, left.columns[j]), "_x"))
      + seq(|extra|, j requires 0 <= j < |extra| => SuffixIf(extra[j], Shared(left, right, on, extra[j]), "_y"))
  }

  /** Without a shared non-key name, the output names are the left names followed by the added right names. */
  lemma MergedColumnsPlain(left: Table, right: Table, on: seq<string>)
    requires forall c :: !Shared(left, right, on, c)
    ensures MergedColumns(left, right, on) == left.columns + ExtraColumns(right, on)
  {
    var r := MergedColumns(left, right, on);
    var extra := ExtraColumns(right, on);
    forall j | 0 <= j < |r| ensures r[j] == (left.columns + extra)[j] {
      if j < |left.columns| {
        assert !Shared(left, right, on, left.columns[j]);
      } else {
        assert !Shared(left, right, on, extra[j - |left.columns|]);
      }
    }
  }

  /** A shared non-key name is kept from both sides, as `<name>_x` and `<name>_y`, and no longer plain. */
  lemma SharedSuffixed(left: Table, right: Table, on: seq<string>, c: string)
    requires Shared(left, right, on, c)
    ensures c + "_x" in MergedColumns(left, right, on) && c + "_y" in MergedColumns(left, right, on)
  {
    var r := MergedColumns(left, right, on);
    var extra := ExtraColumns(right, on);
    var j :| 0 <= j < |left.columns| && left.columns[j] == c;
    assert r[j] == c + "_x";
    var k :| 0 <= k < |extra| && extra[k] == c;
    assert r[|left.columns| + k] == c + "_y";
  }

  /** Key columns and unshared names keep their names. */
  lemma UnsharedPlain(left: Table, right: Table, on: seq<string>, c: string)
    requires c in left.columns && !Shared(left, right, on, c)
    ensures c in MergedColumns(left, right, on)
  {
    var j :| 0 <= j < |left.columns| && left.columns[j] == c;
    assert MergedColumns(left, right, on)[j] == c;
  }

  /** An added right name that the left table lacks keeps its name. */
  lemma ExtraUnsharedPlain(left: Table, right: Table, on: seq<string>, c: string)
    requires c in right.columns && c !in on && c !in left.columns
    ensures c in MergedColumns(left, right, on)
  {
    var extra := ExtraColumns(right, on);
    var k :| 0 <= k < |extra| && extra[k] == c;
    assert MergedColumns(left, right, on)[|left.columns| + k] == c;
  }

  /** A name on neither side, and not ending in "x" or "y", is no output column. */
  lemma AbsentFromMerge(left: Table, right: Table, on: seq<string>, c: string)
    requires c !in left.columns && !(c in right.columns && c !in on)
    requires c == [] || (c[|c| - 1] != 'x' && c[|c| - 1] != 'y')
    ensures c !in MergedColumns(left, right, on)
  {
    var r := MergedColumns(left, right, on);
    var extra := ExtraColumns(right, on);
    forall j | 0 <= j < |r| ensures r[j] != c {
      if j < |left.columns| {
        var d := left.columns[j];
        assert r[j] == SuffixIf(d, Shared(left, right, on, d), "_x");
        if Shared(left, right, on, d) {
          assert r[j][|r[j]| - 1] == 'x';
        }
      } else {
        var d := extra[j - |left.columns|];
        assert d in extra;
        assert r[j] == SuffixIf(d, Shared(left, right, on, d), "_y");
        if Shared(left, right, on, d) {
          assert r[j][|r[j]| - 1] == 'y';
        }
      }
    }
  }

  /** The output rows produced by one left row. */
  function MergedRows(left: Table, right: Table, on: seq<string>, row: seq<Cell>): (r: seq<seq<Cell>>)
    requires WellFormed(right) && Keyed(left, on) && Keyed(right, on) && |row| == |left.columns|
    ensures |r| >= 1
    ensures forall t :: 0 <= t < |r| ==> |r[t]| == |left.columns| + |ExtraColumns(right, on)| && r[t][..|row|] == row
  {
    var m := Matches(right, on, KeyOf(left, on, row));
    var width := |ExtraColumns(right, on)|;
    if m == [] then
      assert (row + Nulls(width))[..|row|] == row;
      [row + Nulls(width)]
    else
      var r := seq(|m|, t requires 0 <= t < |m| => row + Extra(right, on, right.rows[m[t]]));
      assert forall t :: 0 <= t < |m| ==> r[t][..|row|] == row;
      r
  }

  function LeftMerge(left: Table, right: Table, on: seq<string>): (r: Result<Table>)
    requires WellFormed(left) && WellFormed(right)
    ensures r.Ok? <==> Keyed(left, on) && Keyed(right, on)
    ensures r.Err? ==> r.error.kind == KeyError
    ensures r.Ok? ==> r.value.columns == MergedColumns(left, right, on) && WellFormed(r.value)
    ensures r.Ok? ==> |r.value.rows| >= |left.rows|
  {
    var missing := if FirstMissing(left, on).Some? then FirstMissing(left, on) else FirstMissing(right, on);
    if missing.Some? then Raise(KeyError, "'" + missing.value + "'")
    else
      var blocks := seq(|left.rows|, i requires 0 <= i < |left.rows| => MergedRows(left, right, on, left.rows[i]));
      var rows := Flatten(blocks);
      var columns := MergedColumns(left, right, on);
      forall x | x in rows ensures |x| == |columns| {
        FlattenMember(blocks, x);
      }
      FlattenLonger(blocks);
      Ok(Table(columns, rows))
  }

  // ---------------------------------------------------------------- flattening

  lemma {:induction false} FlattenMember<T>(ss: seq<seq<T>>, x: T)
    requires x in Flatten(ss)
    ensures exists i :: 0 <= i < |ss| && x in ss[i]
  {
    if x !in ss[0] {
      FlattenMember(ss[1..], x);
      var i :| 0 <= i < |ss[1..]| && x in ss[1..][i];
      assert x in ss[i + 1];
    }
  }

  lemma {:induction false} FlattenContains<T>(ss: seq<seq<T>>, i: nat, x: T)
    requires i < |ss| && x in ss[i]
    ensures x in Flatten(ss)
  {
    if i > 0 {
      FlattenContains(ss[1..], i - 1, x);
    }
  }

  lemma {:induction false} FlattenLonger<T>(ss: seq<seq<T>>)
    requires forall i :: 0 <= i < |ss| ==> |ss[i]| >= 1
    ensures |Flatten(ss)| >= |ss|
  {
    if ss != [] {
      FlattenLonger(ss[1..]);
    }
  }

  lemma {:induction false} FlattenSingletons<T>(ss: seq<seq<T>>)
    requires forall i :: 0 <= i < |ss| ==> |ss[i]| == 1
    ensures |Flatten(ss)| == |ss| && forall i :: 0 <= i < |ss| ==> Flatten(ss)[i] == ss[i][0]
  {
    if ss != [] {
      FlattenSingletons(ss[1..]);
      assert Flatten(ss) == ss[0] + Flatten(ss[1..]);
    }
  }

  // ---------------------------------------------------------------- properties

  /** A left merge never drops a left row: each one starts some output row. */
  lemma EveryLeftRowKept(left: Table, right: Table, on: seq<string>, i: nat) returns (j: nat)
    requires WellFormed(left) && WellFormed(right) && LeftMerge(left, right, on).Ok?
    requires i < |left.rows|
    ensures var out := LeftMerge(left, right, on).value;
      j < |out.rows| && out.rows[j][..|left.columns|] == left.rows[i]
  {
    var blocks := seq(|left.rows|, i requires 0 <= i < |left.rows| => MergedRows(left, right, on, left.rows[i]));
    var x := blocks[i][0];
    FlattenContains(blocks, i, x);
    var out := LeftMerge(left, right, on).value;
    assert out.rows == Flatten(blocks);
    j :| 0 <= j < |out.rows| && out.rows[j] == x;
  }

  /** Distinct keys on the right. */
  predicate UniqueKeys(right: Table, on: seq<string>)
    requires WellFormed(right) && Keyed(right, on)
  {
    forall a, b :: 0 <= a < b < |right.rows| ==> KeyOf(right, on, right.rows[a]) != KeyOf(right, on, right.rows[b])
  }

  /** With distinct right keys every left row produces exactly one output row. */
  lemma UniqueKeysOneRowEach(left: Table, right: Table, on: seq<string>)
    requires WellFormed(left) && WellFormed(right) && Keyed(left, on) && Keyed(right, on)
    requires UniqueKeys(right, on)
    ensures var out := LeftMerge(left, right, on).value;
      |out.rows| == |left.rows|
      && forall i :: 0 <= i < |left.rows| ==> out.rows[i] == MergedRows(left, right, on, left.rows[i])[0]
  {
    var blocks := seq(|left.rows|, i requires 0 <= i < |left.rows| => MergedRows(left, right, on, left.rows[i]));
    forall i | 0 <= i < |left.rows| ensures |blocks[i]| == 1 {
      var m := Matches(right, on, KeyOf(left, on, left.rows[i]));
      assert forall t :: 0 <= t < |m| ==> m[t] == m[0];
      AllEqualAtMostOne(m);
    }
    FlattenSingletons(blocks);
    assert LeftMerge(left, right, on).value.rows == Flatten(blocks);
  }

  /** With distinct right keys, a left row with a match is followed by that row's cells. */
  lemma UniqueKeysMatched(left: Table, right: Table, on: seq<string>, i: nat, k: nat)
    requires WellFormed(left) && WellFormed(right) && Keyed(left, on) && Keyed(right, on)
    requires UniqueKeys(right, on)
    requires i < |left.rows| && k < |right.rows|
    requires KeyOf(right, on, right.rows[k]) == KeyOf(left, on, left.rows[i])
    ensures var out := LeftMerge(left, right, on).value;
      |out.rows| == |left.rows| && out.rows[i] == left.rows[i] + Extra(right, on, right.rows[k])
  {
    UniqueKeysOneRowEach(left, right, on);
    var m := Matches(right, on, KeyOf(left, on, left.rows[i]));
    assert k in m;
    assert forall t :: 0 <= t < |m| ==> m[t] == k;
  }

  /** A left row without a match is padded with missing values. */
  lemma Unmatched(left: Table, right: Table, on: seq<string>, i: nat)
    requires WellFormed(left) && WellFormed(right) && Keyed(left, on) && Keyed(right, on)
    requires UniqueKeys(right, on)
    requires i < |left.rows|
    requires forall k :: 0 <= k < |right.rows| ==> KeyOf(right, on, right.rows[k]) != KeyOf(left, on, left.rows[i])
    ensures var out := LeftMerge(left, right, on).value;
      |out.rows| == |left.rows| && out.rows[i] == left.rows[i] + Nulls(|ExtraColumns(right, on)|)
  {
    UniqueKeysOneRowEach(left, right, on);
    var m := Matches(right, on, KeyOf(left, on, left.rows[i]));
    assert m == [];
  }

  lemma AllEqualAtMostOne(m: seq<nat>)
    requires NoDup(m) && forall t :: 0 <= t < |m| ==> m[t] == m[0]
    ensures |m| <= 1
  {
    if m != [] {
      AllEqualMultiset(m, m[0]);
      NoDupCountOne(m, m[0]);
    }
  }

  lemma {:induction false} AllEqualMultiset(m: seq<nat>, x: nat)
    requires forall t :: 0 <= t < |m| ==> m[t] == x
    ensures multiset(m)[x] == |m|
  {
    if m != [] {
      AllEqualMultiset(m[1..], x);
      assert m == [m[0]] + m[1..];
    }
  }
}
