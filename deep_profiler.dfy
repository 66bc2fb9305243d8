/**
 * The `AggregateDeepProfiler` class of cyto_utils/DeepProfiler_processing.py:
 * the extension normalisation of its constructor, the profile file names
 * built from the index rows and parsed back, and the grouping dictionary
 * `setup_aggregate` fills one file at a time.
 *
 * The index file is read by the caller: the class is given its rows.
 */
module DeepProfiler {
  import opened Wrappers
  import opened Seqs
  import opened Strings

  /** The characters `strip(".npz")` removes from both ends of a base name. */
  const NpzChars: set<char> := {'.', 'n', 'p', 'z'}

  /** One row of the index file: its `Metadata_Plate`, `Metadata_Well` and `Metadata_Site`. */
  datatype IndexRow = IndexRow(plate: string, well: string, site: string)

  /** The dictionary `extract_filename_metadata` returns. */
  datatype FileInfo = FileInfo(site: string, well: string, plate: string)

  /** One entry of `file_aggregate`: the files of the group and the metadata stored last. */
  datatype Group = Group(files: seq<string>, metadata: FileInfo)

  /** The constructor's extension: a leading "." is added unless there is one. */
  function NormalizedExtension(ext: string): (r: string)
    ensures StartsWith(r, ".")
    ensures r == ext || r == "." + ext
  {
    if StartsWith(ext, ".") then ext else "." + ext
  }

  /** Normalising twice is normalising once, and an extension that already has its dot is kept. */
  lemma NormalizedExtensionIdempotent(ext: string)
    ensures NormalizedExtension(NormalizedExtension(ext)) == NormalizedExtension(ext)
    ensures StartsWith(ext, ".") ==> NormalizedExtension(ext) == ext
    ensures !StartsWith(ext, ".") ==> NormalizedExtension(ext) == "." + ext
  {
    if !StartsWith(ext, ".") {
      assert ("." + ext)[..1] == ".";
    }
  }

  /**
   * `build_filename_from_index`: plate, well and site joined by "_" (not by
   * the file delimiter), then the extension.
   */
  function FilenameFromIndex(row: IndexRow, ext: string): (r: string)
    ensures |r| == |row.plate| + |row.well| + |row.site| + |ext| + 2
    ensures EndsWith(r, ext)
  {
    var r := row.plate + "_" + row.well + "_" + row.site + ext;
    assert r[|r| - |ext|..] == ext;
    r
  }

  /** `build_filenames`: each index row's file name under the profile directory. */
  function Filenames(profileDir: string, rows: seq<IndexRow>, ext: string): (r: seq<string>)
    ensures |r| == |rows|
    ensures forall i :: 0 <= i < |rows| ==> r[i] == profileDir + "/" + FilenameFromIndex(rows[i], ext)
  {
    seq(|rows|, i requires 0 <= i < |rows| => profileDir + "/" + FilenameFromIndex(rows[i], ext))
  }

  /**
   * `extract_filename_metadata`: the base name with the characters of
   * ".npz" stripped from both ends, split on the delimiter; the last piece
   * is the site, the one before it the well, and the rest, joined again, the
   * plate. An empty delimiter is a ValueError and a single piece an IndexError.
   */
  function ExtractFilenameMetadata(path: string, delimiter: string): (r: Result<FileInfo>)
    ensures delimiter == [] ==> r == Raise(ValueError, "empty separator")
    ensures r.Ok? ==> delimiter != [] && !Contains(r.value.well, delimiter) && !Contains(r.value.site, delimiter)
  {
    if delimiter == [] then Raise(ValueError, "empty separator")
    else
      var parts := Split(StripChars(Basename(path), NpzChars), delimiter);
      if |parts| < 2 then Raise(IndexError, "list index out of range")
      else
        SplitPiecesFree(StripChars(Basename(path), NpzChars), delimiter);
        Ok(FileInfo(parts[|parts| - 1], parts[|parts| - 2], Join(parts[..|parts| - 2], delimiter)))
  }

  /** No piece of a split holds the separator. */
  lemma {:induction false} SplitPiecesFree(s: string, sep: string)
    requires sep != []
    ensures forall k :: 0 <= k < |Split(s, sep)| ==> !Contains(Split(s, sep)[k], sep)
    decreases |s|
  {
    FindFirst(s, sep);
    match Find(s, sep)
    case None =>
    case Some(i) =>
      var rest := s[i + |sep|..];
      SplitPiecesFree(rest, sep);
      assert !Contains(s[..i], sep) by {
        forall j | 0 <= j && j + |sep| <= i ensures !OccursAt(s[..i], sep, j) {
          assert !OccursAt(s, sep, j);
          assert s[..i][j..j + |sep|] == s[j..j + |sep|];
        }
        FindNone(s[..i], sep);
      }
      var r := Split(s, sep);
      assert r == [s[..i]] + Split(rest, sep);
      forall k | 0 <= k < |r| ensures !Contains(r[k], sep) {
        if k > 0 {
          assert r[k] == Split(rest, sep)[k - 1];
        }
      }
  }

  // ------------------------------------------------------------ round trip

  /** A name whose well and site hold no "_" splits into the pieces of the plate, the well and the site. */
  lemma SplitKey(plate: string, well: string, site: string)
    requires '_' !in well && '_' !in site
    ensures Split(plate + "_" + well + "_" + site, "_") == Split(plate, "_") + [well, site]
  {
    NotContainsSingle(well, '_');
    NotContainsSingle(site, '_');
    SplitWithout(well, "_");
    SplitWithout(site, "_");
    assert plate + "_" + well + "_" + site == (plate + ['_'] + well) + ['_'] + site;
    SplitConcatSingle(plate + ['_'] + well, '_', site);
    SplitConcatSingle(plate, '_', well);
  }

  /** The stripping leaves a built name without its extension. */
  lemma StrippedName(row: IndexRow, ext: string)
    requires forall k :: 0 <= k < |ext| ==> ext[k] in NpzChars
    requires row.plate == [] || row.plate[0] !in NpzChars
    requires row.site == [] || row.site[|row.site| - 1] !in NpzChars
    ensures StripChars(FilenameFromIndex(row, ext), NpzChars) == row.plate + "_" + row.well + "_" + row.site
  {
    var core := row.plate + "_" + row.well + "_" + row.site;
    var name := FilenameFromIndex(row, ext);
    assert name == core + ext;
    assert core[0] !in NpzChars by {
      if row.plate != [] {
        assert core[0] == row.plate[0];
      }
    }
    assert core[|core| - 1] !in NpzChars by {
      if row.site != [] {
        assert core[|core| - 1] == row.site[|row.site| - 1];
      }
    }
    assert name[0] == core[0];
    LStripPrefix([], name, NpzChars);
    assert [] + name == name;
    RStripSuffix(core, ext, NpzChars);
  }

  /**
   * Building a file name and parsing it back with the default delimiter
   * gives the row's plate, well and site, when well and site hold no "_",
   * no part holds a "/", the extension is made of the stripped characters
   * (such as ".npz"), the plate does not start with one of them and the
   * site does not end with one.
   */
  lemma ExtractBuilt(profileDir: string, row: IndexRow, ext: string)
    requires '_' !in row.well && '_' !in row.site
    requires '/' !in row.plate && '/' !in row.well && '/' !in row.site && '/' !in ext
    requires forall k :: 0 <= k < |ext| ==> ext[k] in NpzChars
    requires row.plate == [] || row.plate[0] !in NpzChars
    requires row.site == [] || row.site[|row.site| - 1] !in NpzChars
    ensures ExtractFilenameMetadata(profileDir + "/" + FilenameFromIndex(row, ext), "_")
            == Ok(FileInfo(row.site, row.well, row.plate))
  {
    var name := FilenameFromIndex(row, ext);
    assert '/' !in name;
    BasenameAfterSlash(profileDir, name);
    StrippedName(row, ext);
    SplitKey(row.plate, row.well, row.site);
    var parts := Split(row.plate, "_") + [row.well, row.site];
    assert parts[..|parts| - 2] == Split(row.plate, "_");
    JoinSplit(row.plate, "_");
  }

  /**
   * Names are always built with "_", so parsing them with a delimiter that
   * occurs nowhere in the name leaves one piece, which is an IndexError.
   */
  lemma OtherDelimiterFails(profileDir: string, row: IndexRow, ext: string, delimiter: string)
    requires delimiter != [] && '/' !in FilenameFromIndex(row, ext)
    requires delimiter[0] !in FilenameFromIndex(row, ext)
    ensures ExtractFilenameMetadata(profileDir + "/" + FilenameFromIndex(row, ext), delimiter)
            == Raise(IndexError, "list index out of range")
  {
    var name := FilenameFromIndex(row, ext);
    BasenameAfterSlash(profileDir, name);
    var stripped := StripChars(name, NpzChars);
    assert delimiter[0] !in stripped by {
      var l := LStrip(name, NpzChars);
      assert forall k :: 0 <= k < |l| ==> l[k] == name[|name| - |l| + k];
      var r := RStrip(l, NpzChars);
      assert forall k :: 0 <= k < |r| ==> r[k] == l[k];
    }
    AbsentHead(stripped, delimiter);
  }

  // ------------------------------------------------------------- grouping

  /**
   * The key of a file's group: "plate_well_site" for "site", "plate_well"
   * for "well", and the plate for "plate"; any other level is a KeyError
   * raised by `file_info[aggregate_on]`.
   */
  function GroupKey(info: FileInfo, aggregateOn: string): (r: Result<string>)
    ensures r.Err? <==> aggregateOn !in {"site", "well", "plate"}
    ensures r.Err? ==> r.error == Error(KeyError, "'" + aggregateOn + "'")
    ensures aggregateOn == "plate" ==> r == Ok(info.plate)
  {
    if aggregateOn == "site" then Ok(info.plate + "_" + info.well + "_" + info.site)
    else if aggregateOn == "well" then Ok(info.plate + "_" + info.well)
    else if aggregateOn == "plate" then Ok(info.plate)
    else Raise(KeyError, "'" + aggregateOn + "'")
  }

  /** At the site level two files share a group exactly when plate, well and site agree. */
  lemma SiteKeysDistinct(a: FileInfo, b: FileInfo)
    requires '_' !in a.well && '_' !in a.site && '_' !in b.well && '_' !in b.site
    ensures GroupKey(a, "site") == GroupKey(b, "site") <==> a == b
  {
    if GroupKey(a, "site") == GroupKey(b, "site") {
      SplitKey(a.plate, a.well, a.site);
      SplitKey(b.plate, b.well, b.site);
      var pa, pb := Split(a.plate, "_"), Split(b.plate, "_");
      assert pa + [a.well, a.site] == pb + [b.well, b.site];
      assert |pa| == |pb|;
      assert a.well == (pa + [a.well, a.site])[|pa|] && b.well == (pb + [b.well, b.site])[|pb|];
      assert a.site == (pa + [a.well, a.site])[|pa| + 1] && b.site == (pb + [b.well, b.site])[|pb| + 1];
      assert pa == (pa + [a.well, a.site])[..|pa|] && pb == (pb + [b.well, b.site])[..|pb|];
      JoinSplit(a.plate, "_");
      JoinSplit(b.plate, "_");
    }
  }

  /** At the well level two files share a group exactly when plate and well agree. */
  lemma WellKeysDistinct(a: FileInfo, b: FileInfo)
    requires '_' !in a.well && '_' !in b.well
    ensures GroupKey(a, "well") == GroupKey(b, "well") <==> (a.plate, a.well) == (b.plate, b.well)
  {
    if GroupKey(a, "well") == GroupKey(b, "well") {
      NotContainsSingle(a.well, '_');
      NotContainsSingle(b.well, '_');
      SplitWithout(a.well, "_");
      SplitWithout(b.well, "_");
      SplitConcatSingle(a.plate, '_', a.well);
      SplitConcatSingle(b.plate, '_', b.well);
      var pa, pb := Split(a.plate, "_"), Split(b.plate, "_");
      assert pa + [a.well] == pb + [b.well];
      assert |pa| == |pb|;
      assert a.well == (pa + [a.well])[|pa|] && b.well == (pb + [b.well])[|pb|];
      assert pa == (pa + [a.well])[..|pa|] && pb == (pb + [b.well])[..|pb|];
      JoinSplit(a.plate, "_");
      JoinSplit(b.plate, "_");
    }
  }

  /** A file's metadata, then its group key: the first exception of the two. */
  function FileKey(file: string, delimiter: string, aggregateOn: string): (r: Result<(string, FileInfo)>)
    ensures r.Ok? <==> ExtractFilenameMetadata(file, delimiter).Ok?
                       && GroupKey(ExtractFilenameMetadata(file, delimiter).value, aggregateOn).Ok?
    ensures r.Ok? ==> r.value.1 == ExtractFilenameMetadata(file, delimiter).value
                      && Ok(r.value.0) == GroupKey(r.value.1, aggregateOn)
  {
    var info := ExtractFilenameMetadata(file, delimiter);
    if info.Err? then Err(info.error)
    else
      var key := GroupKey(info.value, aggregateOn);
      if key.Err? then Err(key.error) else Ok((key.value, info.value))
  }

  /** One file added to the dictionary: appended to its group's list, the group's metadata replaced. */
  function AddFile(groups: map<string, Group>, key: string, file: string, info: FileInfo): (r: map<string, Group>)
    ensures r.Keys == groups.Keys + {key}
    ensures r[key].metadata == info
    ensures r[key].files == (if key in groups then groups[key].files else []) + [file]
    ensures forall k :: k in groups && k != key ==> r[k] == groups[k]
  {
    if key in groups then groups[key := Group(groups[key].files + [file], info)]
    else groups[key := Group([file], info)]
  }

  /**
   * The dictionary after the loop over `files`, and how the loop ended: at
   * the first file whose metadata or key raises, the dictionary holds the
   * files before it.
   */
  function Fill(files: seq<string>, keyOf: string -> Result<(string, FileInfo)>): (r: (map<string, Group>, Outcome))
    decreases |files|
  {
    if files == [] then (map[], Pass)
    else
      var before := Fill(files[..|files| - 1], keyOf);
      if before.1.Fail? then before
      else
        var fk := keyOf(files[|files| - 1]);
        if fk.Err? then (before.0, Fail(fk.error))
        else (AddFile(before.0, fk.value.0, files[|files| - 1], fk.value.1), Pass)
  }

  /** A file's key and metadata, as the loop computes them. */
  function KeyFunction(delimiter: string, aggregateOn: string): string -> Result<(string, FileInfo)>
  {
    f => FileKey(f, delimiter, aggregateOn)
  }

  /** The files with key `key`, in input order. */
  function FilesWithKey(files: seq<string>, key: string, keyOf: string -> Result<(string, FileInfo)>): seq<string>
    decreases |files|
  {
    if files == [] then []
    else
      var last := files[|files| - 1];
      FilesWithKey(files[..|files| - 1], key, keyOf)
        + (if keyOf(last).Ok? && keyOf(last).value.0 == key then [last] else [])
  }

  /** A file is listed under a key exactly when it is one of the files and has that key. */
  lemma {:induction false} FilesWithKeyMember(files: seq<string>, key: string, keyOf: string -> Result<(string, FileInfo)>,
                                              f: string)
    ensures f in FilesWithKey(files, key, keyOf) <==> f in files && keyOf(f).Ok? && keyOf(f).value.0 == key
    decreases |files|
  {
    if files != [] {
      AppendLast([], files);
      FilesWithKeyMember(files[..|files| - 1], key, keyOf, f);
    }
  }

  /** Group `g` under key `k` lists, in input order, the files with that key, and holds the metadata of the last. */
  ghost predicate GroupOf(g: Group, k: string, files: seq<string>, keyOf: string -> Result<(string, FileInfo)>)
  {
    g.files == FilesWithKey(files, k, keyOf)
    && g.files != []
    && keyOf(g.files[|g.files| - 1]).Ok?
    && keyOf(g.files[|g.files| - 1]).value.1 == g.metadata
  }

  /** Every file has a key, and it names a group. */
  ghost predicate Keyed(groups: map<string, Group>, files: seq<string>, keyOf: string -> Result<(string, FileInfo)>)
  {
    forall f :: f in files ==> keyOf(f).Ok? && keyOf(f).value.0 in groups
  }

  /** The group invariant: every file has a group, and each group is the files with its key. */
  ghost predicate Grouped(groups: map<string, Group>, files: seq<string>, keyOf: string -> Result<(string, FileInfo)>)
  {
    Keyed(groups, files, keyOf) && forall k :: k in groups ==> GroupOf(groups[k], k, files, keyOf)
  }

  /** The loop ends normally exactly when every file has metadata and a key. */
  lemma {:induction false} FillPasses(files: seq<string>, keyOf: string -> Result<(string, FileInfo)>)
    ensures Fill(files, keyOf).1.Pass? <==> forall f :: f in files ==> keyOf(f).Ok?
    decreases |files|
  {
    if files != [] {
      AppendLast([], files);
      FillPasses(files[..|files| - 1], keyOf);
    }
  }

  /** A key with no group has no files. */
  lemma NoFilesWithoutGroup(groups: map<string, Group>, init: seq<string>, keyOf: string -> Result<(string, FileInfo)>,
                            k: string)
    requires Keyed(groups, init, keyOf) && k !in groups
    ensures FilesWithKey(init, k, keyOf) == []
  {
    var before := FilesWithKey(init, k, keyOf);
    if before != [] {
      FilesWithKeyMember(init, k, keyOf, before[0]);
      assert false;
    }
  }

  /** The group of the added file's key: the earlier files with that key, then the file, and the file's metadata. */
  lemma GroupSnocSame(groups: map<string, Group>, init: seq<string>, last: string,
                      keyOf: string -> Result<(string, FileInfo)>)
    requires keyOf(last).Ok?
    requires var k := keyOf(last).value.0;
      (k in groups ==> GroupOf(groups[k], k, init, keyOf)) && (k !in groups ==> FilesWithKey(init, k, keyOf) == [])
    ensures var k := keyOf(last).value.0;
      GroupOf(AddFile(groups, k, last, keyOf(last).value.1)[k], k, init + [last], keyOf)
  {
    AppendLast(init, [last]);
  }

  /** Every other group is untouched, and the added file is not one of its files. */
  lemma GroupSnocOther(groups: map<string, Group>, init: seq<string>, last: string,
                       keyOf: string -> Result<(string, FileInfo)>, k: string)
    requires keyOf(last).Ok? && k != keyOf(last).value.0
    requires k in groups && GroupOf(groups[k], k, init, keyOf)
    ensures GroupOf(AddFile(groups, keyOf(last).value.0, last, keyOf(last).value.1)[k], k, init + [last], keyOf)
  {
    AppendLast(init, [last]);
  }

  /** Adding a file with a key keeps the group invariant. */
  lemma GroupedSnoc(groups: map<string, Group>, init: seq<string>, last: string,
                    keyOf: string -> Result<(string, FileInfo)>)
    requires Grouped(groups, init, keyOf) && keyOf(last).Ok?
    ensures Grouped(AddFile(groups, keyOf(last).value.0, last, keyOf(last).value.1), init + [last], keyOf)
  {
    var after := AddFile(groups, keyOf(last).value.0, last, keyOf(last).value.1);
    forall k | k in after
      ensures GroupOf(after[k], k, init + [last], keyOf)
    {
      if k == keyOf(last).value.0 {
        if k !in groups {
          NoFilesWithoutGroup(groups, init, keyOf, k);
        }
        GroupSnocSame(groups, init, last, keyOf);
      } else {
        GroupSnocOther(groups, init, last, keyOf, k);
      }
    }
  }

  /** When the loop ends normally, every file is in the group of its key, in input order, and each group holds the metadata of its last file. */
  lemma {:induction false} FillGroups(files: seq<string>, keyOf: string -> Result<(string, FileInfo)>)
    requires Fill(files, keyOf).1.Pass?
    ensures Grouped(Fill(files, keyOf).0, files, keyOf)
    decreases |files|
  {
    if files != [] {
      var init, last := files[..|files| - 1], files[|files| - 1];
      AppendLast([], files);
      FillGroups(init, keyOf);
      GroupedSnoc(Fill(init, keyOf).0, init, last, keyOf);
    }
  }

  /** Every file lands in the group of its own key and in no other. */
  lemma FileInOneGroup(files: seq<string>, keyOf: string -> Result<(string, FileInfo)>, f: string, k: string)
    requires Fill(files, keyOf).1.Pass? && f in files
    ensures keyOf(f).Ok? && keyOf(f).value.0 in Fill(files, keyOf).0
    ensures k in Fill(files, keyOf).0 ==> (f in Fill(files, keyOf).0[k].files <==> keyOf(f).value.0 == k)
  {
    FillGroups(files, keyOf);
    FilesWithKeyMember(files, k, keyOf, f);
  }

  // ------------------------------------------------------------ the class

  /** The object's fields as a value. */
  datatype State = State(indexRows: seq<IndexRow>, profileDir: string, aggregateOperation: string,
                         aggregateOn: string, fileDelimiter: string, fileExtension: string,
                         filenames: Option<seq<string>>, fileAggregate: Option<map<string, Group>>)

  /** `AggregateDeepProfiler(...)`: the arguments stored, the extension normalised, nothing built yet. */
  function Initial(indexRows: seq<IndexRow>, profileDir: string, aggregateOperation: string, aggregateOn: string,
                   fileDelimiter: string, fileExtension: string): (r: State)
    ensures StartsWith(r.fileExtension, ".") && r.filenames.None? && r.fileAggregate.None?
  {
    State(indexRows, profileDir, aggregateOperation, aggregateOn, fileDelimiter,
          NormalizedExtension(fileExtension), None, None)
  }

  /**
   * `setup_aggregate`: the file names are built when there are none, then
   * the dictionary is filled; an exception leaves it holding the files
   * before the one that raised.
   */
  function AggregateSetup(s: State): (r: (State, Outcome))
    ensures r.0.filenames.Some? && r.0.fileAggregate.Some?
    ensures s.filenames.Some? ==> r.0.filenames == s.filenames
    ensures r.0 == s.(filenames := r.0.filenames, fileAggregate := r.0.fileAggregate)
  {
    var files := if s.filenames.Some? then s.filenames.value else Filenames(s.profileDir, s.indexRows, s.fileExtension);
    var filled := Fill(files, KeyFunction(s.fileDelimiter, s.aggregateOn));
    (s.(filenames := Some(files), fileAggregate := Some(filled.0)), filled.1)
  }

  /** An unknown aggregation level fails at the first file, before the dictionary has any group. */
  lemma UnknownLevelFails(s: State)
    requires s.aggregateOn !in {"site", "well", "plate"}
    requires s.filenames.Some? && s.filenames.value != []
    requires forall f :: f in s.filenames.value ==> ExtractFilenameMetadata(f, s.fileDelimiter).Ok?
    ensures AggregateSetup(s).1 == Fail(Error(KeyError, "'" + s.aggregateOn + "'"))
    ensures AggregateSetup(s).0.fileAggregate == Some(map[])
  {
    var files := s.filenames.value;
    assert files[0] in files;
    FillFirstFails(files, KeyFunction(s.fileDelimiter, s.aggregateOn), Error(KeyError, "'" + s.aggregateOn + "'"));
  }

  lemma {:induction false} FillFirstFails(files: seq<string>, keyOf: string -> Result<(string, FileInfo)>, e: Error)
    requires files != [] && keyOf(files[0]) == Err(e)
    ensures Fill(files, keyOf) == (map[], Fail(e))
    decreases |files|
  {
    if |files| > 1 {
      var init := files[..|files| - 1];
      assert init[0] == files[0];
      FillFirstFails(init, keyOf, e);
    }
  }

  /** One turn of the loop before the dictionary is updated: the file's metadata, then its key. */
  method FileEntry(file: string, delimiter: string, aggregateOn: string) returns (r: Result<(string, FileInfo)>)
    ensures r == KeyFunction(delimiter, aggregateOn)(file)
  {
    var info := ExtractFilenameMetadata(file, delimiter);
    if info.Err? {
      return Err(info.error);
    }
    var key := GroupKey(info.value, aggregateOn);
    if key.Err? {
      return Err(key.error);
    }
    return Ok((key.value, info.value));
  }

  class AggregateDeepProfiler {
    var indexRows: seq<IndexRow>
    var profileDir: string
    var aggregateOperation: string
    var aggregateOn: string
    var fileDelimiter: string
    var fileExtension: string
    var filenames: Option<seq<string>>
    var fileAggregate: Option<map<string, Group>>

    function Fields(): State
      reads this
    {
      State(indexRows, profileDir, aggregateOperation, aggregateOn, fileDelimiter, fileExtension,
            filenames, fileAggregate)
    }

    constructor (indexRows: seq<IndexRow>, profileDir: string, aggregateOperation: string, aggregateOn: string,
                 fileDelimiter: string, fileExtension: string)
      ensures Fields() == Initial(indexRows, profileDir, aggregateOperation, aggregateOn, fileDelimiter, fileExtension)
    {
      this.indexRows := indexRows;
      this.profileDir := profileDir;
      this.aggregateOperation := aggregateOperation;
      this.aggregateOn := aggregateOn;
      this.fileDelimiter := fileDelimiter;
      var ext := fileExtension;
      if !StartsWith(ext, ".") {
        ext := "." + ext;
      }
      this.fileExtension := ext;
      this.filenames := None;
      this.fileAggregate := None;
    }

    /** `build_filenames`. */
    method BuildFilenames()
      modifies this
      ensures Fields() == old(Fields()).(filenames := Some(Filenames(profileDir, indexRows, fileExtension)))
    {
      filenames := Some(Filenames(profileDir, indexRows, fileExtension));
    }

    /** `setup_aggregate`: the loop adding one file at a time to `file_aggregate`. */
    method SetupAggregate() returns (r: Outcome)
      modifies this
      ensures (Fields(), r) == AggregateSetup(old(Fields()))
    {
      if filenames.None? {
        BuildFilenames();
      }
      var files := filenames.value;
      fileAggregate := Some(map[]);
      for i := 0 to |files|
        invariant Fields() == old(Fields()).(filenames := Some(files), fileAggregate := fileAggregate)
        invariant fileAggregate == Some(Fill(files[..i], KeyFunction(fileDelimiter, aggregateOn)).0)
        invariant Fill(files[..i], KeyFunction(fileDelimiter, aggregateOn)).1.Pass?
      {
        ghost var keyOf := KeyFunction(fileDelimiter, aggregateOn);
        FillNext(files, i, keyOf);
        var entry := FileEntry(files[i], fileDelimiter, aggregateOn);
        if entry.Err? {
          FillStops(files, i, keyOf);
          return Fail(entry.error);
        }
        fileAggregate := Some(AddFile(fileAggregate.value, entry.value.0, files[i], entry.value.1));
      }
      assert files[..|files|] == files;
      r := Pass;
    }
  }

  /** One more turn of the loop, after a prefix that ended normally. */
  lemma FillNext(files: seq<string>, i: nat, keyOf: string -> Result<(string, FileInfo)>)
    requires i < |files| && Fill(files[..i], keyOf).1.Pass?
    ensures var before, fk := Fill(files[..i], keyOf).0, keyOf(files[i]);
      Fill(files[..i + 1], keyOf)
        == if fk.Err? then (before, Fail(fk.error)) else (AddFile(before, fk.value.0, files[i], fk.value.1), Pass)
  {
    assert files[..i + 1][..i] == files[..i];
  }

  /** Once a file raises, the rest of the loop does not run. */
  lemma FillStops(files: seq<string>, i: nat, keyOf: string -> Result<(string, FileInfo)>)
    requires i < |files| && Fill(files[..i], keyOf).1.Pass? && keyOf(files[i]).Err?
    ensures Fill(files, keyOf) == (Fill(files[..i], keyOf).0, Fail(keyOf(files[i]).error))
  {
    assert files[..i + 1][..i] == files[..i];
    FillFailed(files, i + 1, keyOf);
  }

  /** A failed prefix keeps its result whatever follows. */
  lemma {:induction false} FillFailed(files: seq<string>, n: nat, keyOf: string -> Result<(string, FileInfo)>)
    requires n <= |files| && Fill(files[..n], keyOf).1.Fail?
    ensures Fill(files, keyOf) == Fill(files[..n], keyOf)
    decreases |files| - n
  {
    if n == |files| {
      assert files[..n] == files;
    } else {
      assert files[..n + 1][..n] == files[..n];
      FillFailed(files, n + 1, keyOf);
    }
  }
}
