/**
 * The name rules of the profile loaders: which reader `load_profiles` picks,
 * the `Metadata_` prefix of `load_platemap`, the column names
 * `load_npz_features` gives, and the bounds check of `load_npz_locations`.
 * File contents are parameters: what a reader would find is passed in.
 */
module Load {
  import opened Wrappers
  import opened Strings
  import opened Paths
  import opened Frames

  // ------------------------------------------------------------ load_profiles

  /** What `load_profiles` may be given. */
  datatype ProfilesArg = GivenFrame(frame: Frame) | GivenAnnData | GivenPath(path: string)

  /** Where the profiles come from once `load_profiles` has decided. */
  datatype Source =
    | Passthrough(frame: Frame)
    | ParquetFile(path: string)
    | AnnDataStore(kind: string)
    | DelimitedFile(path: string)

  const MissingPathMessage := "load_profiles() didn't find the path."

  /** The lower-cased suffix of the final component is ".parquet". */
  predicate ParquetName(path: string)
  {
    Lower(Suffix(path)) == ".parquet"
  }

  /** `is_path_a_parquet_file`: a path must exist; anything that is not a path is not parquet. */
  function IsParquetFile(p: ProfilesArg, exists_: bool): (r: Result<bool>)
    ensures p.GivenPath? && !exists_ <==> r.Err?
    ensures r.Err? ==> r == Raise(FileNotFoundError, MissingPathMessage)
    ensures r == Ok(true) <==> p.GivenPath? && exists_ && ParquetName(p.path)
  {
    match p
    case GivenPath(path) =>
      if !exists_ then Raise(FileNotFoundError, MissingPathMessage) else Ok(ParquetName(path))
    case _ => Ok(false)
  }

  /** The name `stem.ext` is a parquet file name exactly when `ext` lower-cased is "parquet". */
  lemma ParquetExtension(stem: string, ext: string)
    requires stem != [] && '/' !in stem
    requires ext != [] && '.' !in ext && '/' !in ext
    ensures ParquetName(stem + "." + ext) <==> Lower(ext) == "parquet"
    ensures forall dir :: ParquetName(dir + "/" + stem + "." + ext) <==> Lower(ext) == "parquet"
  {
    SuffixOfName(stem, ext);
    DotLower(ext);
  }

  lemma DotLower(ext: string)
    ensures Lower("." + ext) == ".parquet" <==> Lower(ext) == "parquet"
  {
    var l := Lower("." + ext);
    assert l[0] == '.';
    assert l[1..] == Lower(ext);
    assert ".parquet" == "." + "parquet";
    assert l == [l[0]] + l[1..];
  }

  /** A name without a dot in its final component is never taken for parquet. */
  lemma NoSuffixNotParquet(dir: string, name: string)
    requires '.' !in name && '/' !in name
    ensures !ParquetName(dir + "/" + name)
  {
    BasenameAfterSlash(dir, name);
    LastIndexAbsent(name, '.');
  }

  /**
   * `load_profiles`: a frame comes back as it is; a path is tested for parquet,
   * then for an AnnData store (`storeKind`, what `is_anndata` reports), and is
   * otherwise read as delimited text.
   */
  function LoadProfiles(p: ProfilesArg, exists_: bool, storeKind: Option<string>): (r: Result<Source>)
    ensures p.GivenFrame? ==> r == Ok(Passthrough(p.frame))
    ensures p.GivenPath? && !exists_ ==> r == Raise(FileNotFoundError, MissingPathMessage)
    ensures r.Ok? && r.value.ParquetFile? <==> p.GivenPath? && exists_ && ParquetName(p.path)
    ensures p.GivenAnnData? ==> r == Ok(AnnDataStore("in-memory"))
    ensures r.Ok? && r.value.DelimitedFile? <==>
              p.GivenPath? && exists_ && !ParquetName(p.path) && storeKind.None?
    ensures r.Ok? && r.value.AnnDataStore? && p.GivenPath? ==> storeKind == Some(r.value.kind) && r.value.kind in {"h5ad", "zarr", "in-memory"}
  {
    if p.GivenFrame? then Ok(Passthrough(p.frame))
    else
      var parquet :- IsParquetFile(p, exists_);
      if parquet then Ok(ParquetFile(p.path))
      else
        var kind := if p.GivenAnnData? then Some("in-memory") else storeKind;
        match kind
        case Some(k) =>
          if k in {"h5ad", "zarr", "in-memory"} then Ok(AnnDataStore(k))
          else Raise(ValueError, "Unrecognized AnnData type")
        case None => Ok(DelimitedFile(p.path))
  }

  /** Whatever the file system says, a frame argument is handed back unchanged. */
  lemma FramePassesThrough(f: Frame, e1: bool, e2: bool, k1: Option<string>, k2: Option<string>)
    ensures LoadProfiles(GivenFrame(f), e1, k1) == LoadProfiles(GivenFrame(f), e2, k2) == Ok(Passthrough(f))
  {
  }

  // ------------------------------------------------------------ load_platemap

  const MetadataPrefix := "Metadata_"

  /** The platemap column name rule: `Metadata_` in front unless it is already there. */
  function MetadataName(x: string): (r: string)
    ensures StartsWith(r, MetadataPrefix)
    ensures StartsWith(x, MetadataPrefix) ==> r == x
    ensures !StartsWith(x, MetadataPrefix) ==> |r| == |MetadataPrefix| + |x| && r[|MetadataPrefix|..] == x
  {
    if StartsWith(x, MetadataPrefix) then x else MetadataPrefix + x
  }

  /** Prefixing twice is prefixing once. */
  lemma MetadataNameIdempotent(x: string)
    ensures MetadataName(MetadataName(x)) == MetadataName(x)
  {
  }

  /** The list comprehension over the columns, one name at a time. */
  function MetadataNames(columns: seq<string>): (r: seq<string>)
    ensures |r| == |columns|
    ensures forall i :: 0 <= i < |columns| ==> r[i] == MetadataName(columns[i])
  {
    if columns == [] then [] else [MetadataName(columns[0])] + MetadataNames(columns[1..])
  }

  /** Every prefixed name starts with `Metadata_`; already prefixed names are left as they are. */
  lemma MetadataNamesPrefixed(columns: seq<string>)
    ensures forall c :: c in MetadataNames(columns) ==> StartsWith(c, MetadataPrefix)
    ensures (forall c :: c in columns ==> StartsWith(c, MetadataPrefix)) ==> MetadataNames(columns) == columns
  {
  }

  lemma MetadataNamesIdempotent(columns: seq<string>)
    ensures MetadataNames(MetadataNames(columns)) == MetadataNames(columns)
  {
    MetadataNamesPrefixed(columns);
  }

  /** A platemap as positional columns, which pandas allows to share a name. */
  datatype Table = Table(columns: seq<string>, values: seq<seq<Cell>>)

  datatype PlatemapArg = PlatemapFrame(table: Table) | PlatemapPath(path: string)

  /**
   * `load_platemap`: a path is read (`read`, or None when there is no such file) and a
   * frame is copied; with `addMetadataId` every column gets the `Metadata_` rule.
   */
  function LoadPlatemap(arg: PlatemapArg, read: Option<Table>, addMetadataId: bool): (r: Result<Table>)
    ensures arg.PlatemapPath? && read.None? <==> r.Err?
    ensures r.Err? ==> r == Raise(FileNotFoundError, arg.path + " platemap file not found")
    ensures r.Ok? ==> var t := if arg.PlatemapFrame? then arg.table else read.value;
      r.value.values == t.values
      && r.value.columns == (if addMetadataId then MetadataNames(t.columns) else t.columns)
  {
    var t :- match arg
      case PlatemapFrame(table) => Ok(table)
      case PlatemapPath(path) =>
        if read.None? then Raise(FileNotFoundError, path + " platemap file not found") else Ok(read.value);
    if addMetadataId then Ok(Table(MetadataNames(t.columns), t.values)) else Ok(t)
  }

  /** Loading an already loaded platemap again changes nothing. */
  lemma LoadPlatemapTwice(arg: PlatemapArg, read: Option<Table>, addMetadataId: bool, read2: Option<Table>)
    requires LoadPlatemap(arg, read, addMetadataId).Ok?
    ensures var t := LoadPlatemap(arg, read, addMetadataId).value;
      LoadPlatemap(PlatemapFrame(t), read2, addMetadataId) == Ok(t)
  {
    var t := if arg.PlatemapFrame? then arg.table else read.value;
    if addMetadataId {
      MetadataNamesIdempotent(t.columns);
    }
  }

  // ------------------------------------------------------------ load_npz_features

  /** One metadata entry of an npz file: its key and its values, one per row. */
  datatype MetaEntry = MetaEntry(key: string, values: seq<string>)

  /** What `np.load` finds: the feature array's width and, when stored, the metadata dictionary. */
  datatype NpzFeatures = NpzFeatures(width: nat, metadata: Option<seq<MetaEntry>>)

  /** The metadata names after the `Metadata_` rule of `load_npz_features`. */
  function MetaNames(entries: seq<MetaEntry>): (r: seq<string>)
    ensures |r| == |entries|
    ensures forall i :: 0 <= i < |entries| ==> r[i] == MetadataName(entries[i].key)
  {
    if entries == [] then [] else [MetadataName(entries[0].key)] + MetaNames(entries[1..])
  }

  /** The position of the first entry whose prefixed name is `Metadata_Model`, if any. */
  function ModelEntry(entries: seq<MetaEntry>): (r: Option<nat>)
    ensures r.Some? ==> r.value < |entries| && MetadataName(entries[r.value].key) == "Metadata_Model"
    ensures r.Some? ==> forall j :: 0 <= j < r.value ==> MetadataName(entries[j].key) != "Metadata_Model"
    ensures r.None? <==> "Metadata_Model" !in MetaNames(entries)
  {
    if entries == [] then None
    else if MetadataName(entries[0].key) == "Metadata_Model" then Some(0)
    else
      var rest := ModelEntry(entries[1..]);
      assert MetaNames(entries) == [MetadataName(entries[0].key)] + MetaNames(entries[1..]);
      if rest.None? then None else Some(rest.value + 1)
  }

  /**
   * The feature prefix: the first of the `Metadata_Model` values in row order (which
   * is what `unique()[0]` picks), else the fallback.
   */
  function FeaturePrefix(metadata: Option<seq<MetaEntry>>, fallback: string): (r: Result<string>)
    ensures metadata.None? ==> r == Ok(fallback)
    ensures metadata.Some? && "Metadata_Model" !in MetaNames(metadata.value) ==> r == Ok(fallback)
    ensures metadata.Some? && ModelEntry(metadata.value).Some? ==>
              var values := metadata.value[ModelEntry(metadata.value).value].values;
              r == if values == [] then Raise(IndexError, "index 0 is out of bounds for axis 0 with size 0")
                   else Ok(values[0])
  {
    match metadata
    case None => Ok(fallback)
    case Some(entries) =>
      match ModelEntry(entries)
      case None => Ok(fallback)
      case Some(i) =>
        if entries[i].values == [] then Raise(IndexError, "index 0 is out of bounds for axis 0 with size 0")
        else Ok(entries[i].values[0])
  }

  /** The feature name rule: `{prefix}_{x}` unless `x` already starts with the prefix. */
  function FeatureName(x: string, prefix: string): (r: string)
    ensures StartsWith(r, prefix)
    ensures StartsWith(x, prefix) ==> r == x
    ensures !StartsWith(x, prefix) ==> r == prefix + "_" + x
  {
    if StartsWith(x, prefix) then x else prefix + "_" + x
  }

  lemma FeatureNameIdempotent(x: string, prefix: string)
    ensures FeatureName(FeatureName(x, prefix), prefix) == FeatureName(x, prefix)
  {
  }

  /** The array's column labels `0, 1, …` written as names. */
  function ColumnLabels(width: nat): (r: seq<string>)
    ensures |r| == width
    ensures forall i :: 0 <= i < width ==> r[i] == NatToString(i)
  {
    if width == 0 then [] else ColumnLabels(width - 1) + [NatToString(width - 1)]
  }

  /** The array's columns `0, 1, …` as names, after the feature name rule. */
  function FeatureNames(width: nat, prefix: string): (r: seq<string>)
    ensures |r| == width
    ensures forall i :: 0 <= i < width ==> r[i] == FeatureName(NatToString(i), prefix)
  {
    if width == 0 then [] else FeatureNames(width - 1, prefix) + [FeatureName(NatToString(width - 1), prefix)]
  }

  /** The metadata column names, none when the file stores no metadata. */
  function MetaColumnNames(metadata: Option<seq<MetaEntry>>): (r: seq<string>)
    ensures metadata.None? ==> r == []
    ensures metadata.Some? ==> r == MetaNames(metadata.value)
  {
    if metadata.Some? then MetaNames(metadata.value) else []
  }

  /**
   * `load_npz_features`, as the column names of the frame it returns: nothing for a
   * missing file, the bare array columns without `metadata`, and otherwise the
   * metadata columns followed by the prefixed features.
   */
  function NpzFeatureColumns(file: Option<NpzFeatures>, fallback: string, metadata: bool): (r: Result<seq<string>>)
    ensures file.None? ==> r == Ok([])
    ensures file.Some? && !metadata ==> r == Ok(ColumnLabels(file.value.width))
    ensures file.Some? && metadata ==> (r.Err? <==> FeaturePrefix(file.value.metadata, fallback).Err?)
    ensures file.Some? && metadata && r.Ok? ==>
              r.value == MetaColumnNames(file.value.metadata)
                         + FeatureNames(file.value.width, FeaturePrefix(file.value.metadata, fallback).value)
  {
    match file
    case None => Ok([])
    case Some(npz) =>
      if !metadata then Ok(ColumnLabels(npz.width))
      else
        var prefix :- FeaturePrefix(npz.metadata, fallback);
        Ok(MetaColumnNames(npz.metadata) + FeatureNames(npz.width, prefix))
  }

  /** Every metadata column of the npz frame starts with `Metadata_`, every feature with the prefix. */
  lemma NpzColumnsPrefixed(npz: NpzFeatures, fallback: string)
    requires NpzFeatureColumns(Some(npz), fallback, true).Ok?
    ensures var cols := NpzFeatureColumns(Some(npz), fallback, true).value;
      var m := if npz.metadata.Some? then |npz.metadata.value| else 0;
      var prefix := FeaturePrefix(npz.metadata, fallback).value;
      (forall i :: 0 <= i < m ==> StartsWith(cols[i], MetadataPrefix))
      && (forall i :: m <= i < |cols| ==> StartsWith(cols[i], prefix))
  {
  }

  // ------------------------------------------------------------ load_npz_locations

  /** The location frame: which array columns were picked and what they are called. */
  datatype Locations = Locations(picked: seq<nat>, columns: seq<string>)

  const LocationColumns := ["Location_Center_X", "Location_Center_Y"]

  /** `df[[x, y]]` by label: the labels are `0 … width-1`, so a negative index is a missing label. */
  function PickLabels(x: int, y: int): (r: Result<seq<nat>>)
    ensures r.Ok? <==> x >= 0 && y >= 0
    ensures r.Ok? ==> r.value == [x as nat, y as nat]
    ensures x < 0 && y < 0 ==> r.Err? && r.error.kind == KeyError
  {
    if x < 0 && y < 0 then
      Raise(KeyError, "None of [Index([" + IntToString(x) + ", " + IntToString(y) + "], dtype='int64')] are in the [columns]")
    else if x < 0 then Raise(KeyError, "[" + IntToString(x) + "] not in index")
    else if y < 0 then Raise(KeyError, "[" + IntToString(y) + "] not in index")
    else Ok([x as nat, y as nat])
  }

  /**
   * `load_npz_locations` given the number of location columns (None when there is no
   * file): both indices must be below it, x checked first.
   */
  function NpzLocations(width: Option<nat>, x: int, y: int): (r: Result<Locations>)
    ensures width.None? ==> r == Ok(Locations([], []))
    ensures width.Some? && x >= width.value ==> r == Raise(IndexError, "OutOfBounds indexing via location_x_col_index")
    ensures width.Some? && x < width.value && y >= width.value ==> r == Raise(IndexError, "OutOfBounds indexing via location_y_col_index")
    ensures width.Some? && 0 <= x < width.value && 0 <= y < width.value ==>
              r == Ok(Locations([x as nat, y as nat], LocationColumns))
    ensures r.Ok? && width.Some? ==>
              r.value.columns == LocationColumns && forall k :: k in r.value.picked ==> k < width.value
  {
    match width
    case None => Ok(Locations([], []))
    case Some(n) =>
      if x >= n then Raise(IndexError, "OutOfBounds indexing via location_x_col_index")
      else if y >= n then Raise(IndexError, "OutOfBounds indexing via location_y_col_index")
      else
        var picked :- PickLabels(x, y);
        Ok(Locations(picked, LocationColumns))
  }

  /** The default indices work exactly when the file has at least two location columns. */
  lemma DefaultLocations(n: nat)
    ensures NpzLocations(Some(n), 0, 1).Ok? <==> n >= 2
  {
  }
}
