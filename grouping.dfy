/**
 * Group-by keys shared by the aggregation routines: the strata values of a
 * row, the distinct keys with missing values kept as keys of their own
 * (`drop_null_keys=False`, `dropna=False`), and the order `sort_values`
 * puts keys in (missing values last).
 */
module Grouping {
  import opened Seqs
  import opened Strings
  import opened Frames

  /** Order of one key cell: numbers, then text, then missing values last. */
  predicate CellLess(a: Cell, b: Cell): (r: bool)
    ensures r ==> a != b
    ensures a != Null && b == Null ==> r
    ensures a == Null ==> !r
    ensures a.Num? && b.Str? ==> r
  {
    match (a, b)
    case (Num(x), Num(y)) => x < y
    case (Num(_), Str(_)) => true
    case (Str(s), Str(t)) => LessIrreflexive(s); Less(s, t)
    case (Null, _) => false
    case (_, Null) => true
    case (Str(_), Num(_)) => false
  }

  lemma CellLessIrreflexive(a: Cell)
    ensures !CellLess(a, a)
  {
    if a.Str? { LessIrreflexive(a.s); }
  }

  lemma CellLessTotal(a: Cell, b: Cell)
    ensures a == b || CellLess(a, b) || CellLess(b, a)
  {
    if a.Str? && b.Str? { LessTotal(a.s, b.s); }
  }

  lemma CellLessTransitive(a: Cell, b: Cell, c: Cell)
    requires CellLess(a, b) && CellLess(b, c)
    ensures CellLess(a, c)
  {
    if a.Str? && b.Str? && c.Str? { LessTransitive(a.s, b.s, c.s); }
  }

  /** Lexicographic order of strata keys, as `sort_values(by=strata)` compares rows. */
  predicate KeyLess(a: seq<Cell>, b: seq<Cell>)
    decreases |a|
  {
    if a == [] then b != []
    else if b == [] then false
    else if a[0] != b[0] then CellLess(a[0], b[0])
    else KeyLess(a[1..], b[1..])
  }

  predicate KeyLessEq(a: seq<Cell>, b: seq<Cell>) { a == b || KeyLess(a, b) }

  lemma {:induction false} KeyLessIrreflexive(a: seq<Cell>)
    ensures !KeyLess(a, a)
    decreases |a|
  {
    if a != [] { KeyLessIrreflexive(a[1..]); }
  }

  lemma {:induction false} KeyLessTotal(a: seq<Cell>, b: seq<Cell>)
    ensures a == b || KeyLess(a, b) || KeyLess(b, a)
    decreases |a|
  {
    if a != [] && b != [] {
      if a[0] == b[0] {
        KeyLessTotal(a[1..], b[1..]);
        if a[1..] == b[1..] { assert a == [a[0]] + a[1..] && b == [b[0]] + b[1..]; }
      } else {
        CellLessTotal(a[0], b[0]);
      }
    }
  }

  lemma {:induction false} KeyLessTransitive(a: seq<Cell>, b: seq<Cell>, c: seq<Cell>)
    requires KeyLess(a, b) && KeyLess(b, c)
    ensures KeyLess(a, c)
    decreases |a|
  {
    if a != [] && b != [] && c != [] {
      if a[0] == b[0] && b[0] == c[0] {
        KeyLessTransitive(a[1..], b[1..], c[1..]);
      } else if a[0] != b[0] && b[0] != c[0] {
        if a[0] == c[0] {
          CellLessTransitive(a[0], b[0], c[0]);
          CellLessIrreflexive(a[0]);
        } else {
          CellLessTransitive(a[0], b[0], c[0]);
        }
      }
    }
  }

  lemma KeyLessAsymmetric(a: seq<Cell>, b: seq<Cell>)
    requires KeyLess(a, b)
    ensures !KeyLess(b, a)
  {
    if KeyLess(b, a) {
      KeyLessTransitive(a, b, a);
      KeyLessIrreflexive(a);
    }
  }

  predicate KeysSorted(s: seq<seq<Cell>>)
  {
    forall i, j :: 0 <= i < j < |s| ==> KeyLessEq(s[i], s[j])
  }

  lemma ConsKeysSorted(x: seq<Cell>, s: seq<seq<Cell>>)
    requires KeysSorted(s)
    requires s != [] ==> KeyLessEq(x, s[0])
    ensures KeysSorted([x] + s)
  {
    var t := [x] + s;
    forall i, j | 0 <= i < j < |t| ensures KeyLessEq(t[i], t[j]) {
      if i == 0 && j > 1 {
        assert t[j] == s[j - 1];
        if x != s[0] && s[0] != s[j - 1] { KeyLessTransitive(x, s[0], s[j - 1]); }
      }
    }
  }

  function InsertKey(x: seq<Cell>, s: seq<seq<Cell>>): (r: seq<seq<Cell>>)
    requires KeysSorted(s)
    ensures KeysSorted(r)
    ensures multiset(r) == multiset(s) + multiset{x}
    ensures r != [] && (r[0] == x || (s != [] && r[0] == s[0]))
  {
    if s == [] then [x]
    else if KeyLessEq(x, s[0]) then
      ConsKeysSorted(x, s);
      [x] + s
    else
      var rest := InsertKey(x, s[1..]);
      KeyLessTotal(x, s[0]);
      assert multiset(s) == multiset{s[0]} + multiset(s[1..]) by { assert s == [s[0]] + s[1..]; }
      assert KeyLessEq(s[0], rest[0]) by {
        if rest[0] != x { assert rest[0] == s[1..][0]; }
      }
      ConsKeysSorted(s[0], rest);
      [s[0]] + rest
  }

  /** The keys in ascending order: `sort_values(by=strata)` on one row per key. */
  function SortKeys(s: seq<seq<Cell>>): (r: seq<seq<Cell>>)
    ensures KeysSorted(r)
    ensures multiset(r) == multiset(s)
  {
    if s == [] then []
    else
      assert s == [s[0]] + s[1..];
      InsertKey(s[0], SortKeys(s[1..]))
  }

  /** Distinct sorted keys are strictly increasing. */
  lemma SortedDistinctKeysIncrease(s: seq<seq<Cell>>, i: nat, j: nat)
    requires KeysSorted(s) && NoDup(s) && i < j < |s|
    ensures KeyLess(s[i], s[j])
  {
  }

  /** The row indices `0 .. n - 1`. */
  function Range(n: nat): (r: seq<nat>)
    ensures |r| == n && forall i :: 0 <= i < n ==> r[i] == i
  {
    seq(n, i requires 0 <= i < n => i)
  }

  /** The strata values of row `i`. */
  function RowKey(f: Frame, strata: seq<string>, i: nat): (k: seq<Cell>)
    requires Valid(f) && HasColumns(f, strata) && i < f.nrows
    ensures |k| == |strata| && forall t :: 0 <= t < |strata| ==> k[t] == f.data[strata[t]][i]
  {
    seq(|strata|, t requires 0 <= t < |strata| => f.data[strata[t]][i])
  }

  function RowKeys(f: Frame, strata: seq<string>): (r: seq<seq<Cell>>)
    requires Valid(f) && HasColumns(f, strata)
    ensures |r| == f.nrows && forall i :: 0 <= i < f.nrows ==> r[i] == RowKey(f, strata, i)
  {
    seq(f.nrows, i requires 0 <= i < f.nrows => RowKey(f, strata, i))
  }

  /** The distinct keys, one per group, in ascending order. */
  function GroupKeys(f: Frame, strata: seq<string>): (r: seq<seq<Cell>>)
    requires Valid(f) && HasColumns(f, strata)
    ensures NoDup(r) && KeysSorted(r)
    ensures forall k :: k in r <==> exists i :: 0 <= i < f.nrows && RowKey(f, strata, i) == k
    ensures forall t :: 0 <= t < |r| ==> |r[t]| == |strata|
  {
    var keys := RowKeys(f, strata);
    var distinct := Dedup(keys);
    var r := SortKeys(distinct);
    MultisetNoDup(distinct, r);
    forall k ensures k in r <==> k in distinct {
      assert k in r <==> k in multiset(r);
      assert k in distinct <==> k in multiset(distinct);
    }
    forall k ensures k in distinct <==> k in keys {
      DedupMember(keys, k);
    }
    forall t | 0 <= t < |r| ensures |r[t]| == |strata| {
      assert r[t] in keys;
      var i :| 0 <= i < |keys| && keys[i] == r[t];
    }
    r
  }

  /** The rows of one group, in row order. */
  function GroupRows(f: Frame, strata: seq<string>, key: seq<Cell>): (r: seq<nat>)
    requires Valid(f) && HasColumns(f, strata)
    ensures forall t :: 0 <= t < |r| ==> r[t] < f.nrows && RowKey(f, strata, r[t]) == key
    ensures forall i :: 0 <= i < f.nrows && RowKey(f, strata, i) == key ==> i in r
  {
    var all := Range(f.nrows);
    var r := Filter(all, (i: nat) => i < f.nrows && RowKey(f, strata, i) == key);
    assert forall t :: 0 <= t < |r| ==> r[t] in all;
    forall i | 0 <= i < f.nrows && RowKey(f, strata, i) == key ensures i in r {
      assert all[i] == i;
    }
    r
  }

  /** The cells of column `c` at the given rows. */
  function Column(f: Frame, c: string, rows: seq<nat>): (r: seq<Cell>)
    requires Valid(f) && c in f.data
    requires forall t :: 0 <= t < |rows| ==> rows[t] < f.nrows
    ensures |r| == |rows| && forall t :: 0 <= t < |rows| ==> r[t] == f.data[c][rows[t]]
  {
    seq(|rows|, t requires 0 <= t < |rows| => f.data[c][rows[t]])
  }
}
