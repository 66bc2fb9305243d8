/**
 * `write_gct`: profiles written as a GCT 1.3 (Gene Cluster Text) table.
 * The tab-separated file becomes the sequence of rows the CSV writer is
 * given, each row a sequence of cell texts.
 *
 * Layout: the version, the four dimensions, the header row ("id", the
 * feature-annotation names, one `SAMPLE_i` per profile), one row per
 * metadata column, then one row per feature. In the metadata and feature
 * rows each profile's value sits in that profile's column, so the profiles
 * are the columns of the written table.
 */
module WriteGct {
  import opened Wrappers
  import opened Seqs
  import opened Strings
  import opened Frames

  const Version: string := "#1.3"
  const VersionMessage: string := "Only version #1.3 is currently supported."
  const IdMessage: string := "make sure feature metadata has row named 'id' that stores feature metadata names!"
  /** How the CSV writer renders a missing annotation (`np.nan`). */
  const Nan: string := "nan"
  const DefaultAnnotation: string := "cp_feature_name"

  /**
   * The `feature_metadata` argument: absent, or a frame whose row labels
   * are row names of the table and whose cells annotate those rows.
   */
  datatype FeatureMetadata =
    | DefaultFeatureMetadata
    | FeatureMetadataFrame(columns: seq<string>, rows: map<string, seq<string>>)

  predicate FeatureMetadataFits(fm: FeatureMetadata)
  {
    fm.FeatureMetadataFrame? ==> forall name :: name in fm.rows ==> |fm.rows[name]| == |fm.columns|
  }

  /** The number of annotation columns: the third dimension. */
  function AnnotationWidth(fm: FeatureMetadata): nat
  {
    match fm
    case DefaultFeatureMetadata => 1
    case FeatureMetadataFrame(columns, _) => |columns|
  }

  /**
   * The annotation cells of the row named `name`. Without a frame there is
   * one cell, `default`; with one, the frame's row of that name joined from
   * the right, or "nan" in every column when the name has no row.
   */
  function Annotation(fm: FeatureMetadata, name: string, default: string): (r: seq<string>)
    requires FeatureMetadataFits(fm)
    ensures |r| == AnnotationWidth(fm)
  {
    match fm
    case DefaultFeatureMetadata => [default]
    case FeatureMetadataFrame(columns, rows) =>
      if name in rows then rows[name] else seq(|columns|, _ => Nan)
  }

  /** The sample names of a frame with the default row index. */
  function SampleIds(n: nat): (r: seq<string>)
    ensures |r| == n
    ensures forall i :: 0 <= i < n ==> r[i] == "SAMPLE_" + NatToString(i)
  {
    seq(n, i requires 0 <= i => "SAMPLE_" + NatToString(i))
  }

  /** The cells of column `c`, one per profile in row order, as the writer renders them. */
  function ColumnCells(f: Frame, c: string, show: Cell -> string): (r: seq<string>)
    requires Valid(f) && c in f.data
    ensures |r| == f.nrows
    ensures forall j :: 0 <= j < f.nrows ==> r[j] == show(f.data[c][j])
  {
    seq(f.nrows, j requires 0 <= j < f.nrows => show(f.data[c][j]))
  }

  /** The header row. */
  function IdRow(n: nat, fm: FeatureMetadata): seq<string>
    requires FeatureMetadataFits(fm)
  {
    ["id"] + Annotation(fm, "id", DefaultAnnotation) + SampleIds(n)
  }

  /** One row per metadata column: its written name, its annotation ("nan" by default), its values. */
  function MetadataRows(f: Frame, meta: seq<string>, names: seq<string>, fm: FeatureMetadata,
                        show: Cell -> string): (r: seq<seq<string>>)
    requires Valid(f) && HasColumns(f, meta) && |names| == |meta| && FeatureMetadataFits(fm)
    ensures |r| == |meta|
  {
    seq(|meta|, i requires 0 <= i < |meta| => [names[i]] + Annotation(fm, names[i], Nan) + ColumnCells(f, meta[i], show))
  }

  /** One row per feature: its name, its annotation (the name again by default), its values. */
  function FeatureRows(f: Frame, features: seq<string>, fm: FeatureMetadata, show: Cell -> string): (r: seq<seq<string>>)
    requires Valid(f) && HasColumns(f, features) && FeatureMetadataFits(fm)
    ensures |r| == |features|
  {
    seq(|features|, i requires 0 <= i < |features| =>
      [features[i]] + Annotation(fm, features[i], features[i]) + ColumnCells(f, features[i], show))
  }

  /** `[nrow_feature, ncol_features, nrow_metadata, ncol_metadata]`. */
  function Dimensions(nFeatures: nat, nSamples: nat, width: nat, nMeta: nat): seq<string>
  {
    [NatToString(nFeatures), NatToString(nSamples), NatToString(width), NatToString(nMeta)]
  }

  /** The transposed frame after the reset index: header, metadata rows, feature rows. */
  function Body(f: Frame, meta: seq<string>, names: seq<string>, features: seq<string>, fm: FeatureMetadata,
                show: Cell -> string): (r: seq<seq<string>>)
    requires Valid(f) && HasColumns(f, meta) && HasColumns(f, features) && |names| == |meta|
    requires FeatureMetadataFits(fm)
    ensures |r| == 1 + |meta| + |features|
  {
    [IdRow(f.nrows, fm)] + MetadataRows(f, meta, names, fm, show) + FeatureRows(f, features, fm, show)
  }

  /** Everything the writer is given, in order. */
  function Layout(version: string, f: Frame, meta: seq<string>, names: seq<string>, features: seq<string>,
                  fm: FeatureMetadata, show: Cell -> string): (r: seq<seq<string>>)
    requires Valid(f) && HasColumns(f, meta) && HasColumns(f, features) && |names| == |meta|
    requires FeatureMetadataFits(fm)
    ensures |r| == 3 + |meta| + |features|
  {
    [[version], Dimensions(|features|, f.nrows, AnnotationWidth(fm), |meta|)] + Body(f, meta, names, features, fm, show)
  }

  /** `x.replace("Metadata_", "")`: the metadata row names of this writer. */
  function MetadataNames(meta: seq<string>): (r: seq<string>)
    ensures |r| == |meta|
    ensures forall i :: 0 <= i < |meta| ==> r[i] == Replace(meta[i], "Metadata_", "")
  {
    seq(|meta|, i requires 0 <= i < |meta| => Replace(meta[i], "Metadata_", ""))
  }

  /** The assertion on a supplied feature-metadata frame. */
  function CheckFeatureMetadata(fm: FeatureMetadata): (r: Outcome)
    ensures r.Pass? <==> (fm.FeatureMetadataFrame? ==> "id" in fm.rows)
  {
    if fm.FeatureMetadataFrame? && "id" !in fm.rows then Fail(Error(AssertionError, IdMessage)) else Pass
  }

  /**
   * `write_gct(profiles, output_file, features, meta_features, feature_metadata, version)`:
   * the rows written, or the error raised. `inferred` and `inferredMeta` are
   * what feature inference returns for the frame (features, metadata).
   */
  function GctTable(f: Frame, features: FeatureArg, inferred: seq<string>, metaFeatures: FeatureArg,
                    inferredMeta: seq<string>, fm: FeatureMetadata, version: string,
                    show: Cell -> string): (r: Result<seq<seq<string>>>)
    requires Valid(f) && FeatureMetadataFits(fm)
  {
    if version != Version then Raise(AssertionError, VersionMessage)
    else
      var feats := ResolveFeatures(features, inferred);
      var meta := ResolveFeatures(metaFeatures, inferredMeta);
      if CheckColumns(f, feats).Fail? then Err(CheckColumns(f, feats).error)
      else if CheckColumns(f, meta).Fail? then Err(CheckColumns(f, meta).error)
      else if CheckFeatureMetadata(fm).Fail? then Err(CheckFeatureMetadata(fm).error)
      else Ok(Layout(version, f, meta, MetadataNames(meta), feats, fm, show))
  }

  /** The CSV writer loop: the version, the dimensions, then every row of the body. */
  method WriteRows(version: string, dimensions: seq<string>, body: seq<seq<string>>)
    returns (written: seq<seq<string>>)
    ensures written == [[version], dimensions] + body
  {
    written := [[version], dimensions];
    for i := 0 to |body|
      invariant written == [[version], dimensions] + body[..i]
    {
      assert body[..i + 1] == body[..i] + [body[i]];
      written := written + [body[i]];
    }
    assert body[..|body|] == body;
  }

  /** The function itself. */
  method WriteGctRows(f: Frame, features: FeatureArg, inferred: seq<string>, metaFeatures: FeatureArg,
                      inferredMeta: seq<string>, fm: FeatureMetadata, version: string,
                      show: Cell -> string) returns (r: Result<seq<seq<string>>>)
    requires Valid(f) && FeatureMetadataFits(fm)
    ensures r == GctTable(f, features, inferred, metaFeatures, inferredMeta, fm, version, show)
  {
    if version != Version {
      return Raise(AssertionError, VersionMessage);
    }
    var feats := ResolveFeatures(features, inferred);
    var meta := ResolveFeatures(metaFeatures, inferredMeta);
    var checked := CheckColumns(f, feats);
    if checked.Fail? {
      return Err(checked.error);
    }
    checked := CheckColumns(f, meta);
    if checked.Fail? {
      return Err(checked.error);
    }
    checked := CheckFeatureMetadata(fm);
    if checked.Fail? {
      return Err(checked.error);
    }
    var body := Body(f, meta, MetadataNames(meta), feats, fm, show);
    var written := WriteRows(version, Dimensions(|feats|, f.nrows, AnnotationWidth(fm), |meta|), body);
    return Ok(written);
  }

  // ----------------------------------------------------------------- lemmas

  /** The writer succeeds exactly when the version is 1.3, all named columns exist and any annotation frame has an "id" row. */
  lemma GctSucceeds(f: Frame, features: FeatureArg, inferred: seq<string>, metaFeatures: FeatureArg,
                    inferredMeta: seq<string>, fm: FeatureMetadata, version: string, show: Cell -> string)
    requires Valid(f) && FeatureMetadataFits(fm)
    ensures var r := GctTable(f, features, inferred, metaFeatures, inferredMeta, fm, version, show);
      r.Ok? <==> version == Version && HasColumns(f, ResolveFeatures(features, inferred))
                 && HasColumns(f, ResolveFeatures(metaFeatures, inferredMeta))
                 && (fm.FeatureMetadataFrame? ==> "id" in fm.rows)
    ensures version != Version ==>
      GctTable(f, features, inferred, metaFeatures, inferredMeta, fm, version, show) == Raise(AssertionError, VersionMessage)
  {
  }

  /** The three leading rows: version, dimensions, header. */
  lemma LayoutHead(version: string, f: Frame, meta: seq<string>, names: seq<string>, features: seq<string>,
                   fm: FeatureMetadata, show: Cell -> string)
    requires Valid(f) && HasColumns(f, meta) && HasColumns(f, features) && |names| == |meta|
    requires FeatureMetadataFits(fm)
    ensures var rows := Layout(version, f, meta, names, features, fm, show);
      rows[0] == [version]
      && rows[1] == [NatToString(|features|), NatToString(f.nrows), NatToString(AnnotationWidth(fm)), NatToString(|meta|)]
      && rows[2][0] == "id"
      && rows[2][1..1 + AnnotationWidth(fm)] == Annotation(fm, "id", DefaultAnnotation)
      && |rows[2]| == 1 + AnnotationWidth(fm) + f.nrows
      && forall j :: 0 <= j < f.nrows ==> rows[2][1 + AnnotationWidth(fm) + j] == "SAMPLE_" + NatToString(j)
  {
    var rows := Layout(version, f, meta, names, features, fm, show);
    assert rows[2] == IdRow(f.nrows, fm);
  }

  /** A row of the metadata or feature block: name, annotation, then profile j's value in column 1 + width + j. */
  predicate RowOf(row: seq<string>, f: Frame, c: string, name: string, annotation: seq<string>, show: Cell -> string)
    requires Valid(f) && c in f.data
  {
    |row| == 1 + |annotation| + f.nrows
    && row[0] == name
    && row[1..1 + |annotation|] == annotation
    && forall j :: 0 <= j < f.nrows ==> row[1 + |annotation| + j] == show(f.data[c][j])
  }

  lemma MetadataRowsAt(f: Frame, meta: seq<string>, names: seq<string>, fm: FeatureMetadata, show: Cell -> string, i: nat)
    requires Valid(f) && HasColumns(f, meta) && |names| == |meta| && FeatureMetadataFits(fm) && i < |meta|
    ensures RowOf(MetadataRows(f, meta, names, fm, show)[i], f, meta[i], names[i], Annotation(fm, names[i], Nan), show)
  {
    var row := MetadataRows(f, meta, names, fm, show)[i];
    var annotation := Annotation(fm, names[i], Nan);
    assert row == [names[i]] + annotation + ColumnCells(f, meta[i], show);
  }

  lemma FeatureRowsAt(f: Frame, features: seq<string>, fm: FeatureMetadata, show: Cell -> string, i: nat)
    requires Valid(f) && HasColumns(f, features) && FeatureMetadataFits(fm) && i < |features|
    ensures RowOf(FeatureRows(f, features, fm, show)[i], f, features[i], features[i],
                  Annotation(fm, features[i], features[i]), show)
  {
    var row := FeatureRows(f, features, fm, show)[i];
    var annotation := Annotation(fm, features[i], features[i]);
    assert row == [features[i]] + annotation + ColumnCells(f, features[i], show);
  }

  /** The rows after the header: one per metadata column (`meta[i]` at 3 + i), then one per feature. */
  lemma LayoutBlocks(version: string, f: Frame, meta: seq<string>, names: seq<string>, features: seq<string>,
                     fm: FeatureMetadata, show: Cell -> string)
    requires Valid(f) && HasColumns(f, meta) && HasColumns(f, features) && |names| == |meta|
    requires FeatureMetadataFits(fm)
    ensures var rows := Layout(version, f, meta, names, features, fm, show);
      rows[3..3 + |meta|] == MetadataRows(f, meta, names, fm, show)
      && rows[3 + |meta|..] == FeatureRows(f, features, fm, show)
  {
  }

  /**
   * The row of metadata column `meta[i]`: its written name, its annotation,
   * and profile j's value of that column in column 1 + width + j.
   */
  lemma LayoutMetadataRow(version: string, f: Frame, meta: seq<string>, names: seq<string>, features: seq<string>,
                          fm: FeatureMetadata, show: Cell -> string, i: nat)
    requires Valid(f) && HasColumns(f, meta) && HasColumns(f, features) && |names| == |meta|
    requires FeatureMetadataFits(fm) && i < |meta|
    ensures RowOf(Layout(version, f, meta, names, features, fm, show)[3 + i], f, meta[i], names[i],
                  Annotation(fm, names[i], Nan), show)
  {
    var rows := Layout(version, f, meta, names, features, fm, show);
    LayoutBlocks(version, f, meta, names, features, fm, show);
    assert rows[3 + i] == rows[3..3 + |meta|][i];
    MetadataRowsAt(f, meta, names, fm, show, i);
  }

  /**
   * The row of feature `features[i]`, after all metadata rows: its name,
   * its annotation, and profile j's value of that feature in column 1 + width + j.
   */
  lemma LayoutFeatureRow(version: string, f: Frame, meta: seq<string>, names: seq<string>, features: seq<string>,
                         fm: FeatureMetadata, show: Cell -> string, i: nat)
    requires Valid(f) && HasColumns(f, meta) && HasColumns(f, features) && |names| == |meta|
    requires FeatureMetadataFits(fm) && i < |features|
    ensures RowOf(Layout(version, f, meta, names, features, fm, show)[3 + |meta| + i], f, features[i], features[i],
                  Annotation(fm, features[i], features[i]), show)
  {
    var rows := Layout(version, f, meta, names, features, fm, show);
    LayoutBlocks(version, f, meta, names, features, fm, show);
    assert rows[3 + |meta| + i] == rows[3 + |meta|..][i];
    FeatureRowsAt(f, features, fm, show, i);
  }

  /** Two layouts that differ only in the metadata row names differ only in the first cell of those rows. */
  lemma LayoutRenamed(version: string, f: Frame, meta: seq<string>, names1: seq<string>, names2: seq<string>,
                      features: seq<string>, fm: FeatureMetadata, show: Cell -> string, k: nat)
    requires Valid(f) && HasColumns(f, meta) && HasColumns(f, features) && |names1| == |meta| == |names2|
    requires FeatureMetadataFits(fm) && (forall name :: Annotation(fm, name, Nan) == Annotation(fm, "", Nan))
    requires k < 3 + |meta| + |features|
    ensures var rows1, rows2 := Layout(version, f, meta, names1, features, fm, show),
                                Layout(version, f, meta, names2, features, fm, show);
      rows1[k][1..] == rows2[k][1..]
      && (k < 3 || k >= 3 + |meta| ==> rows1[k] == rows2[k])
  {
    var rows1, rows2 := Layout(version, f, meta, names1, features, fm, show),
                        Layout(version, f, meta, names2, features, fm, show);
    if k < 3 {
      assert rows1[..3] == rows2[..3];
      assert rows1[k] == rows1[..3][k];
    } else if k < 3 + |meta| {
      LayoutBlocks(version, f, meta, names1, features, fm, show);
      LayoutBlocks(version, f, meta, names2, features, fm, show);
      var i := k - 3;
      assert rows1[k] == MetadataRows(f, meta, names1, fm, show)[i];
      assert rows2[k] == MetadataRows(f, meta, names2, fm, show)[i];
      assert rows1[k][1..] == Annotation(fm, names1[i], Nan) + ColumnCells(f, meta[i], show);
      assert rows2[k][1..] == Annotation(fm, names2[i], Nan) + ColumnCells(f, meta[i], show);
    } else {
      LayoutBlocks(version, f, meta, names1, features, fm, show);
      LayoutBlocks(version, f, meta, names2, features, fm, show);
      assert rows1[k] == rows1[3 + |meta|..][k - 3 - |meta|];
      assert rows2[k] == rows2[3 + |meta|..][k - 3 - |meta|];
    }
  }

  /** Without an annotation frame the annotation column says "cp_feature_name", "nan" for metadata, and the feature name. */
  lemma DefaultAnnotations(version: string, f: Frame, meta: seq<string>, names: seq<string>, features: seq<string>,
                           show: Cell -> string)
    requires Valid(f) && HasColumns(f, meta) && HasColumns(f, features) && |names| == |meta|
    ensures var rows := Layout(version, f, meta, names, features, DefaultFeatureMetadata, show);
      var metaRows, featureRows := rows[3..3 + |meta|], rows[3 + |meta|..];
      rows[1][2] == "1"
      && rows[2][1] == DefaultAnnotation
      && (forall i :: 0 <= i < |metaRows| ==> metaRows[i][1] == Nan)
      && (forall i :: 0 <= i < |featureRows| ==> featureRows[i][1] == features[i])
  {
    var fm := DefaultFeatureMetadata;
    LayoutHead(version, f, meta, names, features, fm, show);
    LayoutBlocks(version, f, meta, names, features, fm, show);
    forall i | 0 <= i < |meta|
      ensures MetadataRows(f, meta, names, fm, show)[i][1] == Nan
    {
      MetadataRowsAt(f, meta, names, fm, show, i);
    }
    forall i | 0 <= i < |features|
      ensures FeatureRows(f, features, fm, show)[i][1] == features[i]
    {
      FeatureRowsAt(f, features, fm, show, i);
    }
  }

  /** A metadata column's row is named after the column with "Metadata_" removed. */
  lemma MetadataRowName(x: string)
    requires !Contains(x, "Metadata_")
    ensures MetadataNames(["Metadata_" + x]) == [x]
  {
    var s := "Metadata_" + x;
    assert OccursAt(s, "Metadata_", 0);
    assert Find(s, "Metadata_") == Some(0);
    assert s[9..] == x;
    ReplaceWithout(x, "Metadata_", "");
    assert Replace(s, "Metadata_", "") == x;
    assert MetadataNames([s])[0] == x;
  }
}
