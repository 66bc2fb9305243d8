/**
 * Linking columns between CellProfiler compartment tables
 * (cyto_utils/single_cell_ingest_utils.py).
 *
 * A linking map is a `dict[str, dict[str, str]]`: for a compartment `x` and
 * another compartment `y`, `links[x][y]` names the column of `x`'s table that
 * refers to `y`. Python dictionaries keep insertion order, so a map is an
 * association list of entries `(x, [(y, column), ...])`.
 */
module LinkingCols {
  import opened Seqs
  import opened Strings
  import opened Wrappers

  type Inner = seq<(string, string)>
  type Links = seq<(string, Inner)>

  function OuterKeys(links: Links): (r: seq<string>)
    ensures |r| == |links| && forall i :: 0 <= i < |links| ==> r[i] == links[i].0
  {
    seq(|links|, i requires 0 <= i < |links| => links[i].0)
  }

  function InnerKeys(inner: Inner): (r: seq<string>)
    ensures |r| == |inner| && forall j :: 0 <= j < |inner| ==> r[j] == inner[j].0
  {
    seq(|inner|, j requires 0 <= j < |inner| => inner[j].0)
  }

  /** No key repeats, at either level, as in a Python dictionary. */
  predicate IsDict(links: Links)
  {
    NoDup(OuterKeys(links)) && forall i :: 0 <= i < |links| ==> NoDup(InnerKeys(links[i].1))
  }

  /** The `(x, y)` key pairs of one entry. */
  function EntryPairs(e: (string, Inner)): (r: seq<(string, string)>)
    ensures |r| == |e.1| && forall j :: 0 <= j < |e.1| ==> r[j] == (e.0, e.1[j].0)
  {
    seq(|e.1|, j requires 0 <= j < |e.1| => (e.0, e.1[j].0))
  }

  /** The compartments one entry names: its key, then its inner keys. */
  function EntryNames(e: (string, Inner)): seq<string>
  {
    [e.0] + InnerKeys(e.1)
  }

  /** The linking columns of one entry. */
  function EntryValues(e: (string, Inner)): (r: seq<string>)
    ensures |r| == |e.1| && forall j :: 0 <= j < |e.1| ==> r[j] == e.1[j].1
  {
    seq(|e.1|, j requires 0 <= j < |e.1| => e.1[j].1)
  }

  /** The `(x, y)` key pairs in iteration order. */
  function LinkPairs(links: Links): seq<(string, string)>
  {
    if links == [] then [] else LinkPairs(links[..|links| - 1]) + EntryPairs(links[|links| - 1])
  }

  /** Every compartment name in iteration order: each outer key, then its inner keys. */
  function Mentioned(links: Links): seq<string>
  {
    if links == [] then [] else Mentioned(links[..|links| - 1]) + EntryNames(links[|links| - 1])
  }

  /** Every linking column, in iteration order. */
  function LinkValues(links: Links): seq<string>
  {
    if links == [] then [] else LinkValues(links[..|links| - 1]) + EntryValues(links[|links| - 1])
  }

  lemma SnocPairs(links: Links, e: (string, Inner))
    ensures LinkPairs(links + [e]) == LinkPairs(links) + EntryPairs(e)
  {
    assert (links + [e])[..|links|] == links;
  }

  lemma SnocNames(links: Links, e: (string, Inner))
    ensures Mentioned(links + [e]) == Mentioned(links) + EntryNames(e)
  {
    assert (links + [e])[..|links|] == links;
  }

  lemma SnocValues(links: Links, e: (string, Inner))
    ensures LinkValues(links + [e]) == LinkValues(links) + EntryValues(e)
  {
    assert (links + [e])[..|links|] == links;
  }

  /** The entry built from the first `j + 1` inner pairs extends the one built from `j`. */
  lemma EntryStep(x: string, inner: Inner, j: nat)
    requires j < |inner|
    ensures EntryPairs((x, inner[..j + 1])) == EntryPairs((x, inner[..j])) + [(x, inner[j].0)]
    ensures InnerKeys(inner[..j + 1]) == InnerKeys(inner[..j]) + [inner[j].0]
    ensures EntryValues((x, inner[..j + 1])) == EntryValues((x, inner[..j])) + [inner[j].1]
  {
  }

  lemma PairKeysSnoc(ps: seq<(string, string)>, p: (string, string))
    ensures PairKeys(ps + [p]) == PairKeys(ps) + [PairKey(p.0, p.1)]
  {
  }

  /** `"-".join(sorted([x, y]))`. */
  function PairKey(x: string, y: string): (r: string)
    ensures r == x + "-" + y || r == y + "-" + x
  {
    if LessEq(x, y) then x + "-" + y else y + "-" + x
  }

  function PairKeys(pairs: seq<(string, string)>): (r: seq<string>)
    ensures |r| == |pairs| && forall k :: 0 <= k < |pairs| ==> r[k] == PairKey(pairs[k].0, pairs[k].1)
  {
    seq(|pairs|, k requires 0 <= k < |pairs| => PairKey(pairs[k].0, pairs[k].1))
  }

  /** `linking_check`: one pair key per link. */
  function Checks(links: Links): seq<string>
  {
    PairKeys(LinkPairs(links))
  }

  /** Every dictionary pair has its reverse, between two different compartments. */
  predicate Symmetric(links: Links)
  {
    forall k :: 0 <= k < |LinkPairs(links)| ==>
      var p := LinkPairs(links)[k];
      p.0 != p.1 && (p.1, p.0) in LinkPairs(links)
  }

  // ---------------------------------------------------------------- defaults

  /**
   * `get_default_compartments` is not part of this model; it is taken to be
   * the three standard compartments.
   */
  const DefaultCompartments: seq<string> := ["cells", "cytoplasm", "nuclei"]

  /** A three-entry map unrolled into its entries. */
  lemma Unroll3Pairs(e0: (string, Inner), e1: (string, Inner), e2: (string, Inner))
    ensures LinkPairs([e0, e1, e2]) == EntryPairs(e0) + EntryPairs(e1) + EntryPairs(e2)
  {
    SnocPairs([], e0);
    assert [] + [e0] == [e0];
    SnocPairs([e0], e1);
    assert [e0] + [e1] == [e0, e1];
    SnocPairs([e0, e1], e2);
    assert [e0, e1] + [e2] == [e0, e1, e2];
  }

  lemma Unroll3Names(e0: (string, Inner), e1: (string, Inner), e2: (string, Inner))
    ensures Mentioned([e0, e1, e2]) == EntryNames(e0) + EntryNames(e1) + EntryNames(e2)
  {
    SnocNames([], e0);
    assert [] + [e0] == [e0];
    SnocNames([e0], e1);
    assert [e0] + [e1] == [e0, e1];
    SnocNames([e0, e1], e2);
    assert [e0, e1] + [e2] == [e0, e1, e2];
  }

  lemma Unroll3Values(e0: (string, Inner), e1: (string, Inner), e2: (string, Inner))
    ensures LinkValues([e0, e1, e2]) == EntryValues(e0) + EntryValues(e1) + EntryValues(e2)
  {
    SnocValues([], e0);
    assert [] + [e0] == [e0];
    SnocValues([e0], e1);
    assert [e0] + [e1] == [e0, e1];
    SnocValues([e0, e1], e2);
    assert [e0, e1] + [e2] == [e0, e1, e2];
  }

  /** `get_default_linking_cols`. */
  function DefaultLinkingCols(): (r: Links)
    ensures IsDict(r)
    ensures OuterKeys(r) == ["cytoplasm", "cells", "nuclei"]
    ensures LinkValues(r) == ["Cytoplasm_Parent_Cells", "Cytoplasm_Parent_Nuclei", "ObjectNumber", "ObjectNumber"]
  {
    var e0 := ("cytoplasm", [("cells", "Cytoplasm_Parent_Cells"), ("nuclei", "Cytoplasm_Parent_Nuclei")]);
    var e1 := ("cells", [("cytoplasm", "ObjectNumber")]);
    var e2 := ("nuclei", [("cytoplasm", "ObjectNumber")]);
    Unroll3Values(e0, e1, e2);
    assert EntryValues(e0) == ["Cytoplasm_Parent_Cells", "Cytoplasm_Parent_Nuclei"];
    assert EntryValues(e1) == ["ObjectNumber"] && EntryValues(e2) == ["ObjectNumber"];
    assert InnerKeys(e0.1) == ["cells", "nuclei"];
    [e0, e1, e2]
  }

  /** The defaults link cytoplasm with cells and with nuclei, both ways. */
  lemma DefaultLinksSymmetric()
    ensures LinkPairs(DefaultLinkingCols()) ==
      [("cytoplasm", "cells"), ("cytoplasm", "nuclei"), ("cells", "cytoplasm"), ("nuclei", "cytoplasm")]
    ensures Symmetric(DefaultLinkingCols())
  {
    var r := DefaultLinkingCols();
    Unroll3Pairs(r[0], r[1], r[2]);
    assert r == [r[0], r[1], r[2]];
    var p := LinkPairs(r);
    assert EntryPairs(r[0]) == [("cytoplasm", "cells"), ("cytoplasm", "nuclei")];
    assert EntryPairs(r[1]) == [("cells", "cytoplasm")] && EntryPairs(r[2]) == [("nuclei", "cytoplasm")];
    assert p == [("cytoplasm", "cells"), ("cytoplasm", "nuclei"), ("cells", "cytoplasm"), ("nuclei", "cytoplasm")];
    assert p[0] == (p[2].1, p[2].0) && p[1] == (p[3].1, p[3].0);
  }

  // ---------------------------------------------------------------- the check

  datatype LinksArg = DefaultLinks | LinkDict(links: Links) | OtherLinks
  datatype CompartmentsArg = DefaultComps | CompList(names: seq<string>) | OtherComps

  const CompError: string := "compartment not found. Check the specified compartments"

  function InList(names: seq<string>): string -> bool
  {
    (x: string) => x in names
  }

  function Twice(checks: seq<string>): string -> bool
  {
    (c: string) => Count(checks, c) == 2
  }

  /** The first element of `s` that fails `ok`. */
  function FirstFailing(s: seq<string>, ok: string -> bool): (r: Option<string>)
    ensures r.None? <==> forall i :: 0 <= i < |s| ==> ok(s[i])
    ensures r.Some? ==> r.value in s && !ok(r.value)
  {
    if s == [] then None
    else if !ok(s[0]) then Some(s[0])
    else
      var r := FirstFailing(s[1..], ok);
      assert forall i :: 0 < i < |s| ==> s[i] == s[1..][i - 1];
      r
  }

  lemma {:induction false} FirstFailingAfter(a: seq<string>, b: seq<string>, ok: string -> bool)
    requires forall i :: 0 <= i < |a| ==> ok(a[i])
    ensures FirstFailing(a + b, ok) == FirstFailing(b, ok)
  {
    if a != [] {
      var ab := a + b;
      assert ab[0] == a[0] && ok(a[0]);
      assert ab[1..] == a[1..] + b;
      assert forall i :: 0 <= i < |a[1..]| ==> a[1..][i] == a[i + 1];
      FirstFailingAfter(a[1..], b, ok);
      assert FirstFailing(ab, ok) == FirstFailing(ab[1..], ok);
    } else {
      assert a + b == b;
    }
  }

  /** Python's `repr` of a set of strings. Python shows the elements in hash order; this model shows them in the order given. */
  function SetRepr(s: seq<string>): string
  {
    if s == [] then "set()"
    else "{" + Join(seq(|s|, i requires 0 <= i < |s| => "'" + s[i] + "'"), ", ") + "}"
  }

  function MissingMessage(mentioned: seq<string>, comps: seq<string>): string
  {
    var diff := Filter(Unique(comps), NotIn(mentioned));
    "All compartments must be specified in the linking_cols, " + SetRepr(diff) + " is missing"
  }

  /** The check for a resolved map and compartment list, in the order the source makes it. */
  function CheckResolved(links: Links, comps: seq<string>): (r: Outcome)
    ensures r.Fail? ==> r.error.kind == ValueError
  {
    var unknown := FirstFailing(Mentioned(links), InList(comps));
    if unknown.Some? then Fail(Error(ValueError, unknown.value + " " + CompError))
    else CheckPairs(Checks(links), Mentioned(links), comps)
  }

  /** The checks after the scan: every pair key twice, then the mentioned set against the list. */
  function CheckPairs(checks: seq<string>, mentioned: seq<string>, comps: seq<string>): (r: Outcome)
    ensures r.Fail? ==> r.error.kind == ValueError
  {
    var miscount := FirstFailing(Dedup(checks), Twice(checks));
    if miscount.Some? then Fail(Error(ValueError, "Missing column identifier between " + miscount.value))
    else if Unique(mentioned) != Sort(comps) then Fail(Error(ValueError, MissingMessage(mentioned, comps)))
    else Pass
  }

  /** `assert_linking_cols_complete` as a specification: "default" arguments resolved, then the type checks. */
  function LinkingColsComplete(la: LinksArg, ca: CompartmentsArg): (r: Outcome)
    ensures la.OtherLinks? ==> r == Fail(Error(ValueError, "linking_cols must be a dictionary or 'default'"))
    ensures !la.OtherLinks? && ca.OtherComps? ==> r == Fail(Error(ValueError, "compartments must be a list or 'default'"))
    ensures la.LinkDict? && ca.CompList? ==> r == CheckResolved(la.links, ca.names)
  {
    if la.OtherLinks? then Fail(Error(ValueError, "linking_cols must be a dictionary or 'default'"))
    else if ca.OtherComps? then Fail(Error(ValueError, "compartments must be a list or 'default'"))
    else
      var links := if la.DefaultLinks? then DefaultLinkingCols() else la.links;
      var comps := if ca.DefaultComps? then DefaultCompartments else ca.names;
      CheckResolved(links, comps)
  }

  lemma PrefixStep(links: Links, i: nat)
    requires i < |links|
    ensures LinkPairs(links[..i + 1]) == LinkPairs(links[..i]) + EntryPairs(links[i])
    ensures Mentioned(links[..i + 1]) == Mentioned(links[..i]) + EntryNames(links[i])
  {
    assert links[..i + 1] == links[..i] + [links[i]];
    SnocPairs(links[..i], links[i]);
    SnocNames(links[..i], links[i]);
  }

  lemma PrefixValues(links: Links, i: nat)
    requires i < |links|
    ensures LinkValues(links[..i + 1]) == LinkValues(links[..i]) + EntryValues(links[i])
  {
    assert links[..i + 1] == links[..i] + [links[i]];
    SnocValues(links[..i], links[i]);
  }

  lemma {:induction false} MentionedConcat(a: Links, b: Links)
    ensures Mentioned(a + b) == Mentioned(a) + Mentioned(b)
    decreases |b|
  {
    if b == [] {
      assert a + b == a;
    } else {
      var b0 := b[..|b| - 1];
      var e := b[|b| - 1];
      var ab0 := a + b0;
      assert a + b == ab0 + [e];
      assert b == b0 + [e];
      MentionedConcat(a, b0);
      SnocNames(ab0, e);
      SnocNames(b0, e);
    }
  }

  /** The names mentioned before entry `i`, its names, and those after it. */
  lemma MentionedAround(links: Links, i: nat)
    requires i < |links|
    ensures Mentioned(links) == Mentioned(links[..i]) + EntryNames(links[i]) + Mentioned(links[i + 1..])
  {
    var pre, e, post := links[..i], links[i], links[i + 1..];
    var upto := pre + [e];
    SplitAt(links, i);
    MentionedConcat(upto, post);
    SnocNames(pre, e);
  }

  lemma InnerKeysAround(inner: Inner, j: nat)
    requires j < |inner|
    ensures InnerKeys(inner) == InnerKeys(inner[..j]) + [inner[j].0] + InnerKeys(inner[j + 1..])
  {
  }

  /** The first unlisted name, after listed ones only, is the one reported. */
  lemma ReportedUnknown(links: Links, comps: seq<string>, before: seq<string>, y: string, after: seq<string>)
    requires Mentioned(links) == before + [y] + after
    requires forall k :: 0 <= k < |before| ==> before[k] in comps
    requires y !in comps
    ensures FirstFailing(Mentioned(links), InList(comps)) == Some(y)
  {
    assert before + [y] + after == before + ([y] + after);
    FirstFailingAfter(before, [y] + after, InList(comps));
  }

  /**
   * `assert_linking_cols_complete`: the loops over the map collect the
   * mentioned compartments and the pair keys, stopping at the first name that
   * is not a compartment; then every pair key is counted, then the mentioned
   * set is compared with the list.
   */
  method AssertLinkingColsComplete(la: LinksArg, ca: CompartmentsArg) returns (r: Outcome)
    ensures r == LinkingColsComplete(la, ca)
  {
    if la.OtherLinks? {
      return Fail(Error(ValueError, "linking_cols must be a dictionary or 'default'"));
    }
    if ca.OtherComps? {
      return Fail(Error(ValueError, "compartments must be a list or 'default'"));
    }
    var links := if la.DefaultLinks? then DefaultLinkingCols() else la.links;
    var comps := if ca.DefaultComps? then DefaultCompartments else ca.names;
    assert LinkingColsComplete(la, ca) == CheckResolved(links, comps);
    r := CheckLoops(links, comps);
  }

  method CheckLoops(links: Links, comps: seq<string>) returns (r: Outcome)
    ensures r == CheckResolved(links, comps)
  {
    var linkingCheck: seq<string> := [];
    var unique: seq<string> := [];
    var i := 0;
    while i < |links|
      invariant 0 <= i <= |links|
      invariant unique == Mentioned(links[..i]) && linkingCheck == PairKeys(LinkPairs(links[..i]))
      invariant forall k :: 0 <= k < |unique| ==> unique[k] in comps
    {
      var bad;
      bad, unique, linkingCheck := ScanEntry(links, comps, i, unique, linkingCheck);
      if bad.Some? {
        return Fail(Error(ValueError, bad.value + " " + CompError));
      }
      i := i + 1;
    }
    assert links[..i] == links;
    r := CountPairs(linkingCheck, unique, comps);
  }

  /**
   * One pass of the outer loop: entry `i`'s key, then each of its inner keys,
   * is recorded and checked; a name that is not listed stops the scan.
   */
  method ScanEntry(links: Links, comps: seq<string>, i: nat, unique0: seq<string>, check0: seq<string>)
    returns (bad: Option<string>, unique: seq<string>, linkingCheck: seq<string>)
    requires i < |links|
    requires unique0 == Mentioned(links[..i]) && check0 == PairKeys(LinkPairs(links[..i]))
    requires forall k :: 0 <= k < |unique0| ==> unique0[k] in comps
    ensures bad.Some? ==> FirstFailing(Mentioned(links), InList(comps)) == bad
    ensures bad.None? ==> unique == Mentioned(links[..i + 1]) && linkingCheck == PairKeys(LinkPairs(links[..i + 1]))
    ensures bad.None? ==> forall k :: 0 <= k < |unique| ==> unique[k] in comps
  {
    var x := links[i].0;
    if x !in comps {
      UnknownOuter(links, comps, i);
      return Some(x), unique0, check0;
    }
    bad, unique, linkingCheck := ScanInner(links, comps, i, unique0 + [x], check0);
    if bad.None? {
      PrefixStep(links, i);
      PairKeysConcat(LinkPairs(links[..i]), EntryPairs(links[i]));
      assert unique0 + [x] + InnerKeys(links[i].1) == unique0 + EntryNames(links[i]);
    }
  }

  /** The inner loop of one entry: each inner key is recorded and checked. */
  method ScanInner(links: Links, comps: seq<string>, i: nat, unique1: seq<string>, check0: seq<string>)
    returns (bad: Option<string>, unique: seq<string>, linkingCheck: seq<string>)
    requires i < |links|
    requires unique1 == Mentioned(links[..i]) + [links[i].0]
    requires forall k :: 0 <= k < |unique1| ==> unique1[k] in comps
    ensures bad.Some? ==> FirstFailing(Mentioned(links), InList(comps)) == bad
    ensures bad.None? ==> unique == unique1 + InnerKeys(links[i].1)
    ensures bad.None? ==> linkingCheck == check0 + PairKeys(EntryPairs(links[i]))
    ensures bad.None? ==> forall k :: 0 <= k < |unique| ==> unique[k] in comps
  {
    var x := links[i].0;
    var inner := links[i].1;
    unique := unique1;
    linkingCheck := check0;
    var j := 0;
    while j < |inner|
      invariant 0 <= j <= |inner|
      invariant unique == unique1 + InnerKeys(inner[..j])
      invariant linkingCheck == check0 + PairKeys(EntryPairs((x, inner[..j])))
      invariant forall k :: 0 <= k < |unique| ==> unique[k] in comps
    {
      var y := inner[j].0;
      if y !in comps {
        UnknownInner(links, comps, i, j);
        return Some(y), unique, linkingCheck;
      }
      EntryStep(x, inner, j);
      PairKeysSnoc(EntryPairs((x, inner[..j])), (x, y));
      unique := unique + [y];
      linkingCheck := linkingCheck + [PairKey(x, y)];
      j := j + 1;
    }
    assert inner[..j] == inner;
    bad := None;
  }

  lemma PairKeysConcat(a: seq<(string, string)>, b: seq<(string, string)>)
    ensures PairKeys(a + b) == PairKeys(a) + PairKeys(b)
  {
  }

  /** Entry `i`'s key, after listed names only, is not listed. */
  lemma UnknownOuter(links: Links, comps: seq<string>, i: nat)
    requires i < |links| && links[i].0 !in comps
    requires forall k :: 0 <= k < |Mentioned(links[..i])| ==> Mentioned(links[..i])[k] in comps
    ensures FirstFailing(Mentioned(links), InList(comps)) == Some(links[i].0)
  {
    MentionedAround(links, i);
    ReportedUnknown(links, comps, Mentioned(links[..i]), links[i].0, InnerKeys(links[i].1) + Mentioned(links[i + 1..]));
  }

  /** Entry `i`'s inner key `j`, after listed names only, is not listed. */
  lemma UnknownInner(links: Links, comps: seq<string>, i: nat, j: nat)
    requires i < |links| && j < |links[i].1| && links[i].1[j].0 !in comps
    requires var before := Mentioned(links[..i]) + [links[i].0] + InnerKeys(links[i].1[..j]);
      forall k :: 0 <= k < |before| ==> before[k] in comps
    ensures FirstFailing(Mentioned(links), InList(comps)) == Some(links[i].1[j].0)
  {
    var before := Mentioned(links[..i]) + [links[i].0] + InnerKeys(links[i].1[..j]);
    var after := InnerKeys(links[i].1[j + 1..]) + Mentioned(links[i + 1..]);
    MentionedAtInner(links, i, j);
    ReportedUnknown(links, comps, before, links[i].1[j].0, after);
  }

  lemma MentionedAtInner(links: Links, i: nat, j: nat)
    requires i < |links| && j < |links[i].1|
    ensures Mentioned(links) == Mentioned(links[..i]) + [links[i].0] + InnerKeys(links[i].1[..j])
      + [links[i].1[j].0] + (InnerKeys(links[i].1[j + 1..]) + Mentioned(links[i + 1..]))
  {
    var inner := links[i].1;
    MentionedAround(links, i);
    InnerKeysAround(inner, j);
    var m0, x, k0, y, k1, m1 := Mentioned(links[..i]), links[i].0, InnerKeys(inner[..j]), inner[j].0, InnerKeys(inner[j + 1..]), Mentioned(links[i + 1..]);
    assert EntryNames(links[i]) == [x] + (k0 + [y] + k1);
    assert m0 + ([x] + (k0 + [y] + k1)) + m1 == m0 + [x] + k0 + [y] + (k1 + m1);
  }

  /** The `Counter` loop over the pair keys, then the comparison of sorted names. */
  method CountPairs(linkingCheck: seq<string>, unique: seq<string>, comps: seq<string>) returns (r: Outcome)
    ensures r == CheckPairs(linkingCheck, unique, comps)
  {
    var miscount := FindMiscount(linkingCheck);
    if miscount.Some? {
      return Fail(Error(ValueError, "Missing column identifier between " + miscount.value));
    }
    if Unique(unique) != Sort(comps) {
      return Fail(Error(ValueError, MissingMessage(unique, comps)));
    }
    return Pass;
  }

  /** The first distinct pair key that does not occur exactly twice. */
  method FindMiscount(linkingCheck: seq<string>) returns (miscount: Option<string>)
    ensures miscount == FirstFailing(Dedup(linkingCheck), Twice(linkingCheck))
  {
    var combos := Dedup(linkingCheck);
    var twice := Twice(linkingCheck);
    var k := 0;
    while k < |combos|
      invariant 0 <= k <= |combos|
      invariant forall m :: 0 <= m < k ==> twice(combos[m])
    {
      if Count(linkingCheck, combos[k]) != 2 {
        assert combos == combos[..k] + combos[k..];
        FirstFailingAfter(combos[..k], combos[k..], twice);
        return Some(combos[k]);
      }
      k := k + 1;
    }
    return None;
  }

  // ---------------------------------------------------------------- properties

  /** A resolved map passes exactly when its three conditions hold. */
  lemma CompleteIff(links: Links, comps: seq<string>)
    ensures CheckResolved(links, comps).Pass? <==>
      (forall i :: 0 <= i < |Mentioned(links)| ==> Mentioned(links)[i] in comps)
      && (forall k :: 0 <= k < |Checks(links)| ==> Count(Checks(links), Checks(links)[k]) == 2)
      && Unique(Mentioned(links)) == Sort(comps)
  {
    var m := Mentioned(links);
    var unknown := FirstFailing(m, InList(comps));
    assert unknown.None? <==> forall i :: 0 <= i < |m| ==> m[i] in comps;
    PairsPassIff(Checks(links), m, comps);
    if unknown.None? {
      assert CheckResolved(links, comps) == CheckPairs(Checks(links), m, comps);
    }
  }

  /** The pair checks pass exactly when every key occurs twice and the names agree. */
  lemma PairsPassIff(checks: seq<string>, mentioned: seq<string>, comps: seq<string>)
    ensures CheckPairs(checks, mentioned, comps).Pass? <==>
      (forall k :: 0 <= k < |checks| ==> Count(checks, checks[k]) == 2) && Unique(mentioned) == Sort(comps)
  {
    MiscountNoneIff(checks);
  }

  /** No distinct key is miscounted exactly when every key occurs twice. */
  lemma MiscountNoneIff(checks: seq<string>)
    ensures FirstFailing(Dedup(checks), Twice(checks)).None? <==>
      forall k :: 0 <= k < |checks| ==> Count(checks, checks[k]) == 2
  {
    var d := Dedup(checks);
    var miscount := FirstFailing(d, Twice(checks));
    if miscount.None? {
      forall k | 0 <= k < |checks| ensures Count(checks, checks[k]) == 2 {
        var t :| 0 <= t < |d| && d[t] == checks[k];
        assert Twice(checks)(d[t]);
      }
    } else {
      var t :| 0 <= t < |d| && !Twice(checks)(d[t]);
      assert d[t] in checks;
    }
  }

  /** The first mentioned name that is not listed is the one reported. */
  lemma UnknownCompartmentReported(links: Links, comps: seq<string>, i: nat)
    requires i < |Mentioned(links)| && Mentioned(links)[i] !in comps
    requires forall k :: 0 <= k < i ==> Mentioned(links)[k] in comps
    ensures CheckResolved(links, comps) == Fail(Error(ValueError, Mentioned(links)[i] + " " + CompError))
  {
    var m := Mentioned(links);
    assert m == m[..i] + [m[i]] + m[i + 1..];
    ReportedUnknown(links, comps, m[..i], m[i], m[i + 1..]);
  }

  /** A duplicated compartment can never pass. */
  lemma DuplicateCompartmentFails(links: Links, comps: seq<string>)
    requires !NoDup(comps)
    ensures CheckResolved(links, comps).Fail?
  {
    DuplicateNeverSorted(Unique(Mentioned(links)), comps);
  }

  /** A list without duplicates is never the sorted form of a list with one. */
  lemma DuplicateNeverSorted(u: seq<string>, comps: seq<string>)
    requires NoDup(u) && !NoDup(comps)
    ensures u != Sort(comps)
  {
    var i, j :| 0 <= i < j < |comps| && comps[i] == comps[j];
    CountMultiset(comps, comps[i], i, j);
    NoDupCountOne(u, comps[i]);
  }

  lemma CountMultiset(s: seq<string>, x: string, i: nat, j: nat)
    requires i < j < |s| && s[i] == x && s[j] == x
    ensures multiset(s)[x] >= 2
  {
    assert s == s[..i] + [s[i]] + s[i + 1..j] + [s[j]] + s[j + 1..];
  }

  /** A listed compartment the map never mentions can never pass. */
  lemma UnmentionedCompartmentFails(links: Links, comps: seq<string>, c: string)
    requires c in comps && c !in Mentioned(links)
    ensures CheckResolved(links, comps).Fail?
  {
    var s := Sort(comps);
    assert c in multiset(s);
  }

  // ------------------------------------------------- symmetry of a passing map

  predicate NoHyphen(s: string) { '-' !in s }

  lemma PairKeyJoin(x: string, y: string)
    ensures LessEq(x, y) ==> PairKey(x, y) == Join([x, y], "-")
    ensures !LessEq(x, y) ==> PairKey(x, y) == Join([y, x], "-")
  {
    assert [x, y][1..] == [y];
    assert [y, x][1..] == [x];
  }

  /** Without hyphens in the names, a pair key determines its unordered pair. */
  lemma PairKeyInjective(a: string, b: string, x: string, y: string)
    requires NoHyphen(a) && NoHyphen(b) && NoHyphen(x) && NoHyphen(y)
    requires PairKey(a, b) == PairKey(x, y)
    ensures (a, b) == (x, y) || (a, b) == (y, x)
  {
    PairKeyJoin(a, b);
    PairKeyJoin(x, y);
    var p := if LessEq(a, b) then [a, b] else [b, a];
    var q := if LessEq(x, y) then [x, y] else [y, x];
    SplitJoin(p, '-');
    SplitJoin(q, '-');
  }

  lemma {:induction false} CountKeysSingle(pairs: seq<(string, string)>, p: (string, string))
    requires NoDup(pairs) && p in pairs
    requires forall k :: 0 <= k < |pairs| && PairKey(pairs[k].0, pairs[k].1) == PairKey(p.0, p.1) ==> pairs[k] == p
    ensures Count(PairKeys(pairs), PairKey(p.0, p.1)) == 1
  {
    var keys := PairKeys(pairs);
    var v := PairKey(p.0, p.1);
    assert keys[1..] == PairKeys(pairs[1..]);
    var tail := pairs[1..];
    assert NoDup(tail) by {
      forall a, b | 0 <= a < b < |tail| ensures tail[a] != tail[b] { assert tail[a] == pairs[a + 1]; }
    }
    if pairs[0] == p {
      assert v !in keys[1..] by {
        forall k | 0 <= k < |tail| ensures keys[1..][k] != v {
          assert tail[k] == pairs[k + 1] != pairs[0];
        }
      }
    } else {
      assert p in tail;
      forall k | 0 <= k < |tail| && PairKey(tail[k].0, tail[k].1) == v ensures tail[k] == p {
        assert tail[k] == pairs[k + 1];
      }
      CountKeysSingle(tail, p);
    }
  }

  lemma {:induction false} LinkPairsKeys(links: Links, k: nat)
    requires k < |LinkPairs(links)|
    ensures LinkPairs(links)[k].0 in OuterKeys(links)
    decreases |links|
  {
    var n := |links| - 1;
    var init := links[..n];
    var head := LinkPairs(init);
    if k < |head| {
      LinkPairsKeys(init, k);
      assert OuterKeys(init) == OuterKeys(links)[..n];
    } else {
      assert LinkPairs(links)[k] == EntryPairs(links[n])[k - |head|];
      assert OuterKeys(links)[n] == links[n].0;
    }
  }

  lemma {:induction false} LinkPairsNoDup(links: Links)
    requires IsDict(links)
    ensures NoDup(LinkPairs(links))
    decreases |links|
  {
    if links != [] {
      var n := |links| - 1;
      var init := links[..n];
      assert OuterKeys(init) == OuterKeys(links)[..n];
      assert IsDict(init) by {
        forall i | 0 <= i < |init| ensures NoDup(InnerKeys(init[i].1)) { assert init[i] == links[i]; }
      }
      LinkPairsNoDup(init);
      var head := LinkPairs(init);
      var last := links[n];
      var pairs := LinkPairs(links);
      assert pairs == head + EntryPairs(last);
      forall a, b | 0 <= a < b < |pairs| ensures pairs[a] != pairs[b] {
        if b >= |head| {
          assert pairs[b] == EntryPairs(last)[b - |head|];
          if a < |head| {
            LinkPairsKeys(init, a);
            assert pairs[a] == head[a];
            assert OuterKeys(links)[n] !in OuterKeys(links)[..n];
          } else {
            assert pairs[a] == EntryPairs(last)[a - |head|];
            assert InnerKeys(last.1)[a - |head|] != InnerKeys(last.1)[b - |head|];
          }
        } else {
          assert pairs[a] == head[a] && pairs[b] == head[b];
        }
      }
    }
  }

  predicate HyphenFree(links: Links)
  {
    forall i :: 0 <= i < |Mentioned(links)| ==> NoHyphen(Mentioned(links)[i])
  }

  lemma {:induction false} PairNamesMentioned(links: Links, k: nat)
    requires k < |LinkPairs(links)|
    ensures LinkPairs(links)[k].0 in Mentioned(links) && LinkPairs(links)[k].1 in Mentioned(links)
    decreases |links|
  {
    var n := |links| - 1;
    var init := links[..n];
    var head := LinkPairs(init);
    assert Mentioned(links) == Mentioned(init) + EntryNames(links[n]);
    if k < |head| {
      PairNamesMentioned(init, k);
      assert LinkPairs(links)[k] == head[k];
    } else {
      var j := k - |head|;
      assert LinkPairs(links)[k] == EntryPairs(links[n])[j] == (links[n].0, links[n].1[j].0);
      assert EntryNames(links[n])[0] == links[n].0;
      assert EntryNames(links[n])[j + 1] == links[n].1[j].0;
    }
  }

  /**
   * A map that passes, with hyphen-free names, has every link in both
   * directions between two different compartments: the one-to-one
   * correspondence the defaults are documented to have.
   */
  lemma PassingMapIsSymmetric(links: Links, comps: seq<string>)
    requires IsDict(links) && HyphenFree(links)
    requires CheckResolved(links, comps).Pass?
    ensures Symmetric(links)
  {
    CompleteIff(links, comps);
    var pairs := LinkPairs(links);
    LinkPairsNoDup(links);
    forall k | 0 <= k < |pairs| ensures pairs[k].0 != pairs[k].1 && (pairs[k].1, pairs[k].0) in pairs {
      OnlyOneDirectionMiscounted(links, k);
    }
  }

  lemma OnlyOneDirectionMiscounted(links: Links, k: nat)
    requires IsDict(links) && HyphenFree(links)
    requires k < |LinkPairs(links)|
    requires forall t :: 0 <= t < |Checks(links)| ==> Count(Checks(links), Checks(links)[t]) == 2
    ensures LinkPairs(links)[k].0 != LinkPairs(links)[k].1
    ensures (LinkPairs(links)[k].1, LinkPairs(links)[k].0) in LinkPairs(links)
  {
    var pairs := LinkPairs(links);
    var p := pairs[k];
    LinkPairsNoDup(links);
    assert Count(Checks(links), PairKey(p.0, p.1)) == 2;
    if p.0 == p.1 || (p.1, p.0) !in pairs {
      PairNamesMentioned(links, k);
      forall t | 0 <= t < |pairs| && PairKey(pairs[t].0, pairs[t].1) == PairKey(p.0, p.1) ensures pairs[t] == p {
        PairNamesMentioned(links, t);
        var mi :| 0 <= mi < |Mentioned(links)| && Mentioned(links)[mi] == pairs[t].0;
        var mj :| 0 <= mj < |Mentioned(links)| && Mentioned(links)[mj] == pairs[t].1;
        var mk :| 0 <= mk < |Mentioned(links)| && Mentioned(links)[mk] == p.0;
        var ml :| 0 <= ml < |Mentioned(links)| && Mentioned(links)[ml] == p.1;
        PairKeyInjective(pairs[t].0, pairs[t].1, p.0, p.1);
      }
      CountKeysSingle(pairs, p);
    }
  }

  /** The default map passes the check against the default compartments. */
  lemma DefaultsComplete()
    ensures LinkingColsComplete(DefaultLinks, DefaultComps) == Pass
  {
    var links := DefaultLinkingCols();
    assert LinkingColsComplete(DefaultLinks, DefaultComps) == CheckResolved(links, DefaultCompartments);
    DefaultScanPasses();
    DefaultPairsPass();
  }

  lemma DefaultScanPasses()
    ensures FirstFailing(Mentioned(DefaultLinkingCols()), InList(DefaultCompartments)).None?
  {
    DefaultMentioned();
  }

  lemma DefaultPairsPass()
    ensures CheckPairs(Checks(DefaultLinkingCols()), Mentioned(DefaultLinkingCols()), DefaultCompartments) == Pass
  {
    DefaultMentioned();
    DefaultChecks();
    SortedDefault();
    UniqueDefault(Mentioned(DefaultLinkingCols()));
  }

  lemma DefaultMentioned()
    ensures Mentioned(DefaultLinkingCols()) == ["cytoplasm", "cells", "nuclei", "cells", "cytoplasm", "nuclei", "cytoplasm"]
  {
    var links := DefaultLinkingCols();
    Unroll3Names(links[0], links[1], links[2]);
    assert links == [links[0], links[1], links[2]];
    assert InnerKeys(links[0].1) == ["cells", "nuclei"];
    assert InnerKeys(links[1].1) == ["cytoplasm"] && InnerKeys(links[2].1) == ["cytoplasm"];
  }

  lemma DefaultChecks()
    ensures var checks := Checks(DefaultLinkingCols()); FirstFailing(Dedup(checks), Twice(checks)).None?
  {
    DefaultLinksSymmetric();
    DefaultKeys();
    var checks := Checks(DefaultLinkingCols());
    assert checks == ["cells-cytoplasm", "cytoplasm-nuclei", "cells-cytoplasm", "cytoplasm-nuclei"];
    DedupDefault(checks);
  }

  lemma DedupDefault(checks: seq<string>)
    requires checks == ["cells-cytoplasm", "cytoplasm-nuclei", "cells-cytoplasm", "cytoplasm-nuclei"]
    ensures FirstFailing(Dedup(checks), Twice(checks)).None?
  {
    assert "cells-cytoplasm" != "cytoplasm-nuclei" by { assert "cells-cytoplasm"[1] != "cytoplasm-nuclei"[1]; }
    DedupTwoPairs("cells-cytoplasm", "cytoplasm-nuclei");
  }

  /** Two keys, each given twice, alternately. */
  lemma DedupTwoPairs(a: string, b: string)
    requires a != b
    ensures Dedup([a, b, a, b]) == [a, b]
    ensures Count([a, b, a, b], a) == 2 && Count([a, b, a, b], b) == 2
  {
    DedupAlternating(a, b);
    CountAlternating(a, b);
  }

  lemma DedupAlternating(a: string, b: string)
    requires a != b
    ensures Dedup([a, b, a, b]) == [a, b]
  {
    var c := [a, b, a, b];
    assert c[..3] == [a, b, a];
    assert Dedup([a]) == [a] by { assert [a][..0] == []; }
    assert Dedup([a, b]) == [a, b] by { assert [a, b][..1] == [a]; }
    assert Dedup([a, b, a]) == [a, b] by { assert [a, b, a][..2] == [a, b]; }
  }

  lemma CountAlternating(a: string, b: string)
    requires a != b
    ensures Count([a, b, a, b], a) == 2 && Count([a, b, a, b], b) == 2
  {
    assert [a, b, a, b][1..] == [b, a, b] && [b, a, b][1..] == [a, b] && [a, b][1..] == [b] && [b][1..] == [];
    assert Count([b], a) == 0 && Count([b], b) == 1;
    assert Count([a, b], a) == 1 && Count([a, b], b) == 1;
  }

  /** The pair keys of the default links. */
  lemma DefaultKeys()
    ensures PairKey("cytoplasm", "cells") == "cells-cytoplasm" && PairKey("cells", "cytoplasm") == "cells-cytoplasm"
    ensures PairKey("cytoplasm", "nuclei") == "cytoplasm-nuclei" && PairKey("nuclei", "cytoplasm") == "cytoplasm-nuclei"
  {
    assert Less("cells", "cytoplasm") by { assert Less("ells", "ytoplasm"); }
    assert !Less("cytoplasm", "cells") by { LessAsymmetric("cells", "cytoplasm"); }
    assert Less("cytoplasm", "nuclei");
    assert !Less("nuclei", "cytoplasm") by { LessAsymmetric("cytoplasm", "nuclei"); }
  }

  lemma DefaultSorted()
    ensures Sorted(DefaultCompartments) && NoDup(DefaultCompartments)
  {
    assert Less("cells", "cytoplasm") by { assert Less("ells", "ytoplasm"); }
    assert Less("cytoplasm", "nuclei") && Less("cells", "nuclei");
  }

  lemma SortedDefault()
    ensures Sort(DefaultCompartments) == DefaultCompartments
  {
    DefaultSorted();
    SortedPermutation(Sort(DefaultCompartments), DefaultCompartments);
  }

  lemma UniqueDefault(m: seq<string>)
    requires forall x :: x in m <==> x in DefaultCompartments
    ensures Unique(m) == DefaultCompartments
  {
    var u := Unique(m);
    DefaultSorted();
    NoDupSameElements(u, DefaultCompartments);
    SortedPermutation(u, DefaultCompartments);
  }

  // ------------------------------------------------------ feature name update

  /** The rename map the feature-name update builds from a list of linking columns. */
  function RenameMap(cols: seq<string>): map<string, string>
  {
    map v | v in cols :: "Metadata_" + v
  }

  /**
   * `provide_linking_cols_feature_name_update`: gathers every linking column,
   * then maps each to `Metadata_` + its name; repeated columns give one entry.
   */
  method ProvideLinkingColsFeatureNameUpdate(la: LinksArg) returns (update: map<string, string>)
    requires !la.OtherLinks?
    ensures update == RenameMap(LinkValues(if la.DefaultLinks? then DefaultLinkingCols() else la.links))
    ensures forall v :: v in update <==> v in LinkValues(if la.DefaultLinks? then DefaultLinkingCols() else la.links)
    ensures forall v :: v in update ==> update[v] == "Metadata_" + v
  {
    var links := if la.DefaultLinks? then DefaultLinkingCols() else la.links;
    var cols := GatherLinkingColumns(links);
    update := RenameLoop(cols);
  }

  /** The dictionary comprehension of the update, one column at a time. */
  method RenameLoop(cols: seq<string>) returns (update: map<string, string>)
    ensures update == RenameMap(cols)
  {
    update := map[];
    var k := 0;
    while k < |cols|
      invariant 0 <= k <= |cols|
      invariant update == RenameMap(cols[..k])
    {
      RenameMapSnoc(cols[..k], cols[k]);
      assert cols[..k + 1] == cols[..k] + [cols[k]];
      update := update[cols[k] := "Metadata_" + cols[k]];
      k := k + 1;
    }
    assert cols[..k] == cols;
  }

  lemma RenameMapSnoc(cols: seq<string>, c: string)
    ensures RenameMap(cols + [c]) == RenameMap(cols)[c := "Metadata_" + c]
  {
  }

  /** The nested loop collecting `metadata_update_cols`. */
  method GatherLinkingColumns(links: Links) returns (cols: seq<string>)
    ensures cols == LinkValues(links)
  {
    cols := [];
    var i := 0;
    while i < |links|
      invariant 0 <= i <= |links|
      invariant cols == LinkValues(links[..i])
    {
      var x := links[i].0;
      var inner := links[i].1;
      var j := 0;
      while j < |inner|
        invariant 0 <= j <= |inner|
        invariant cols == LinkValues(links[..i]) + EntryValues((x, inner[..j]))
      {
        EntryStep(x, inner, j);
        cols := cols + [inner[j].1];
        j := j + 1;
      }
      assert inner[..j] == inner;
      PrefixValues(links, i);
      i := i + 1;
    }
    assert links[..i] == links;
  }

  /** With the defaults the update has the three distinct linking columns. */
  lemma DefaultFeatureNameUpdate()
    ensures RenameMap(LinkValues(DefaultLinkingCols())) ==
      map["Cytoplasm_Parent_Cells" := "Metadata_" + "Cytoplasm_Parent_Cells",
          "Cytoplasm_Parent_Nuclei" := "Metadata_" + "Cytoplasm_Parent_Nuclei",
          "ObjectNumber" := "Metadata_" + "ObjectNumber"]
  {
    RenameRepeatedLast("Cytoplasm_Parent_Cells", "Cytoplasm_Parent_Nuclei", "ObjectNumber");
  }

  lemma RenameRepeatedLast(a: string, b: string, c: string)
    ensures RenameMap([a, b, c, c]) == map[a := "Metadata_" + a, b := "Metadata_" + b, c := "Metadata_" + c]
  {
    var m := RenameMap([a, b, c, c]);
    var lit := map[a := "Metadata_" + a, b := "Metadata_" + b, c := "Metadata_" + c];
    assert m.Keys == lit.Keys;
    forall v | v in m ensures m[v] == lit[v] { }
  }
}
