/**
 * The blacklist reader (cyto_utils/features.py). The CSV file becomes a table
 * value: its header and the cells of each named column.
 */
module Blacklist {
  import opened Seqs
  import opened Wrappers

  datatype Table = Table(columns: seq<string>, cells: map<string, seq<string>>)

  predicate WellFormed(t: Table)
  {
    forall i :: 0 <= i < |t.columns| ==> t.columns[i] in t.cells
  }

  /**
   * `get_blacklist_features`: the `blacklist` column, restricted to the
   * population's columns when a population frame is given.
   */
  function GetBlacklistFeatures(t: Table, population: Option<seq<string>>): (r: Result<seq<string>>)
    requires WellFormed(t)
    ensures r.Err? <==> "blacklist" !in t.columns
    ensures r.Err? ==> r == Raise(AssertionError, "one column must be named 'blacklist'")
    ensures r.Ok? ==> Subseq(r.value, t.cells["blacklist"])
    ensures r.Ok? && population.None? ==> r.value == t.cells["blacklist"]
    ensures r.Ok? && population.Some? ==> forall x ::
      x in r.value <==> x in t.cells["blacklist"] && x in population.value
    ensures r.Ok? && population.Some? ==> forall x ::
      multiset(r.value)[x] == if x in population.value then multiset(t.cells["blacklist"])[x] else 0
  {
    if "blacklist" !in t.columns then Raise(AssertionError, "one column must be named 'blacklist'")
    else
      var listed := t.cells["blacklist"];
      match population
      case None => SubseqRefl(listed); Ok(listed)
      case Some(columns) =>
        var kept := Filter(listed, (x: string) => x in columns);
        FilterSubseq(listed, (x: string) => x in columns);
        assert forall x :: x in kept ==> x in listed && x in columns by {
          forall x | x in kept ensures x in listed && x in columns {
            var i :| 0 <= i < |kept| && kept[i] == x;
          }
        }
        assert forall x :: x in listed && x in columns ==> x in kept by {
          forall x | x in listed && x in columns ensures x in kept {
            var i :| 0 <= i < |listed| && listed[i] == x;
          }
        }
        forall x ensures multiset(kept)[x] == if x in columns then multiset(listed)[x] else 0 {
          FilterMultiplicity(listed, (x: string) => x in columns, x);
        }
        Ok(kept)
  }

  /** A population holding every blacklisted name leaves the list as read. */
  lemma {:induction false} FullPopulationKeepsAll(t: Table, columns: seq<string>)
    requires WellFormed(t) && "blacklist" in t.columns
    requires forall i :: 0 <= i < |t.cells["blacklist"]| ==> t.cells["blacklist"][i] in columns
    ensures GetBlacklistFeatures(t, Some(columns)) == GetBlacklistFeatures(t, None)
  {
    FilterAll(t.cells["blacklist"], (x: string) => x in columns);
  }
}
