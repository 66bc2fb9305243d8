/**
 * The legacy `write_gct`: the same GCT 1.3 layout as `WriteGct`, with the
 * features always inferred, the metadata columns those whose name contains
 * "Metadata_", one default annotation column, and the metadata row names
 * made by `lstrip("Metadata_")`.
 *
 * `lstrip` removes leading characters drawn from the SET {M, e, t, a, d, _},
 * not the prefix, so "Metadata_treatment" is written as "reatment". The
 * evidently intended name is the column name without its "Metadata_"
 * prefix; `LegacyGctTableIntended` writes that one.
 */
module LegacyWriteGct {
  import opened Wrappers
  import opened Seqs
  import opened Strings
  import opened Frames
  import opened WriteGct

  /** The characters `lstrip("Metadata_")` removes. */
  const StripSet: set<char> := {'M', 'e', 't', 'a', 'd', '_'}

  /** `profiles.columns.str.contains("Metadata_")`. */
  function ContainsMetadata(): string -> bool
  {
    c => Contains(c, "Metadata_")
  }

  /** The metadata columns: every column whose name contains "Metadata_", in frame order. */
  function LegacyMetadataColumns(f: Frame): (r: seq<string>)
    requires Valid(f)
    ensures HasColumns(f, r)
    ensures forall c :: c in r <==> c in f.columns && Contains(c, "Metadata_")
  {
    var r := Filter(f.columns, ContainsMetadata());
    forall c ensures c in r <==> c in f.columns && Contains(c, "Metadata_") {
      FilterMember(f.columns, ContainsMetadata(), c);
    }
    r
  }

  /** The metadata row name as written: `lstrip` with the character set. */
  function StrippedName(c: string): (r: string)
    ensures r == [] || r[0] !in StripSet
  {
    LStrip(c, StripSet)
  }

  /** The evidently intended row name: the column name without a leading "Metadata_". */
  function PrefixRemoved(c: string): (r: string)
    ensures !StartsWith(c, "Metadata_") ==> r == c
  {
    if StartsWith(c, "Metadata_") then c[9..] else c
  }

  function StrippedNames(meta: seq<string>): (r: seq<string>)
    ensures |r| == |meta|
    ensures forall i :: 0 <= i < |meta| ==> r[i] == StrippedName(meta[i])
  {
    seq(|meta|, i requires 0 <= i < |meta| => StrippedName(meta[i]))
  }

  function PrefixRemovedNames(meta: seq<string>): (r: seq<string>)
    ensures |r| == |meta|
    ensures forall i :: 0 <= i < |meta| ==> r[i] == PrefixRemoved(meta[i])
  {
    seq(|meta|, i requires 0 <= i < |meta| => PrefixRemoved(meta[i]))
  }

  /** The shared part: version check, inferred features present, then the layout with the given row names. */
  function LegacyTable(f: Frame, inferred: seq<string>, version: string, show: Cell -> string, intended: bool)
    : (r: Result<seq<seq<string>>>)
    requires Valid(f)
  {
    if version != Version then Raise(AssertionError, VersionMessage)
    else if CheckColumns(f, inferred).Fail? then Err(CheckColumns(f, inferred).error)
    else
      var meta := LegacyMetadataColumns(f);
      var names := if intended then PrefixRemovedNames(meta) else StrippedNames(meta);
      Ok(Layout(version, f, meta, names, inferred, DefaultFeatureMetadata, show))
  }

  /**
   * `write_gct(profiles, output_file, features, version)` as written; the
   * `features` argument is ignored and `inferred` is what feature inference
   * returns for the frame.
   */
  function LegacyGctTable(f: Frame, inferred: seq<string>, version: string, show: Cell -> string)
    : (r: Result<seq<seq<string>>>)
    requires Valid(f)
    ensures r.Ok? <==> version == Version && HasColumns(f, inferred)
    ensures version != Version ==> r == Raise(AssertionError, VersionMessage)
    ensures r.Ok? ==> |r.value| == 3 + |LegacyMetadataColumns(f)| + |inferred|
    ensures r.Ok? ==> r.value[1] == Dimensions(|inferred|, f.nrows, 1, |LegacyMetadataColumns(f)|)
  {
    LegacyTable(f, inferred, version, show, false)
  }

  /** The same writer with the metadata prefix removed from the row names. */
  function LegacyGctTableIntended(f: Frame, inferred: seq<string>, version: string, show: Cell -> string)
    : (r: Result<seq<seq<string>>>)
    requires Valid(f)
    ensures r.Ok? <==> version == Version && HasColumns(f, inferred)
    ensures r.Ok? ==> |r.value| == 3 + |LegacyMetadataColumns(f)| + |inferred|
    ensures r.Ok? ==> r.value[1] == Dimensions(|inferred|, f.nrows, 1, |LegacyMetadataColumns(f)|)
  {
    LegacyTable(f, inferred, version, show, true)
  }

  /** The function itself: the checks, then the writer loop over the transposed frame. */
  method LegacyWriteGctRows(f: Frame, inferred: seq<string>, version: string, show: Cell -> string)
    returns (r: Result<seq<seq<string>>>)
    requires Valid(f)
    ensures r == LegacyGctTableIntended(f, inferred, version, show)
  {
    if version != Version {
      return Raise(AssertionError, VersionMessage);
    }
    var checked := CheckColumns(f, inferred);
    if checked.Fail? {
      return Err(checked.error);
    }
    var meta := LegacyMetadataColumns(f);
    var body := Body(f, meta, PrefixRemovedNames(meta), inferred, DefaultFeatureMetadata, show);
    var written := WriteRows(version, Dimensions(|inferred|, f.nrows, 1, |meta|), body);
    return Ok(written);
  }

  // ----------------------------------------------------------------- lemmas

  /** Both versions lay out the same table, with their own metadata row names. */
  lemma LegacyLayouts(f: Frame, inferred: seq<string>, version: string, show: Cell -> string)
    requires Valid(f) && LegacyGctTable(f, inferred, version, show).Ok?
    ensures var meta := LegacyMetadataColumns(f);
      LegacyGctTable(f, inferred, version, show).value
        == Layout(version, f, meta, StrippedNames(meta), inferred, DefaultFeatureMetadata, show)
      && LegacyGctTableIntended(f, inferred, version, show).value
        == Layout(version, f, meta, PrefixRemovedNames(meta), inferred, DefaultFeatureMetadata, show)
  {
  }

  /** Both versions write the same table except for the names of the metadata rows. */
  lemma OnlyNamesDiffer(f: Frame, inferred: seq<string>, version: string, show: Cell -> string, k: nat)
    requires Valid(f) && LegacyGctTable(f, inferred, version, show).Ok?
    requires k < 3 + |LegacyMetadataColumns(f)| + |inferred|
    ensures var asWritten, intended := LegacyGctTable(f, inferred, version, show).value,
                                       LegacyGctTableIntended(f, inferred, version, show).value;
      k < |asWritten| && k < |intended| && |asWritten[k]| >= 1 && |intended[k]| >= 1
      && asWritten[k][1..] == intended[k][1..]
      && (k < 3 || k >= 3 + |LegacyMetadataColumns(f)| ==> asWritten[k] == intended[k])
  {
    var meta := LegacyMetadataColumns(f);
    LegacyLayouts(f, inferred, version, show);
    LayoutRenamed(version, f, meta, StrippedNames(meta), PrefixRemovedNames(meta), inferred, DefaultFeatureMetadata,
                  show, k);
  }

  /**
   * As written: a letter of the set after the prefix is stripped too, so
   * "Metadata_treatment" (x = "reatment") is written as "reatment"; the
   * intended name is "treatment".
   */
  lemma StrippedLeadingT(x: string)
    requires x == [] || x[0] !in StripSet
    ensures StrippedName("Metadata_t" + x) == x
    ensures PrefixRemoved("Metadata_t" + x) == "t" + x
  {
    LStripPrefix("Metadata_t", x, StripSet);
    PrefixRemovedAfterPrefix("t" + x);
    assert "Metadata_t" + x == "Metadata_" + ("t" + x);
  }

  /** The intended name is the rest of the column name, whatever it starts with. */
  lemma PrefixRemovedAfterPrefix(x: string)
    ensures PrefixRemoved("Metadata_" + x) == x
  {
    assert ("Metadata_" + x)[..9] == "Metadata_";
  }

  /** The two agree when the rest of the name does not start with a stripped character. */
  lemma StrippedAgrees(x: string)
    requires x == [] || x[0] !in StripSet
    ensures StrippedName("Metadata_" + x) == PrefixRemoved("Metadata_" + x)
  {
    LStripPrefix("Metadata_", x, StripSet);
    PrefixRemovedAfterPrefix(x);
  }
}
