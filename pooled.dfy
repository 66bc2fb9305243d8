/**
 * The `PooledCellPainting` class of pooled/process.py: the compartment
 * checks of its constructor and setter, the labelling of a compartment's
 * columns, the order in which compartments are merged, and the column order
 * of the concatenated sites.
 *
 * Frames appear here through their column names only; the merge is the
 * inner join `join(left, right, leftOn, rightOn)`, a parameter.
 */
module Pooled {
  import opened Wrappers
  import opened Seqs
  import opened Strings
  import Util

  const CytoplasmMessage: string := "Cytoplasm must be present because it maps together Nuclei and Cells"
  /** `_capitalize_compartments` names the undefined variable `compartments` outside its list branch. */
  const UndefinedCompartments: string := "name 'compartments' is not defined"
  const UnhashableList: string := "unhashable type: 'list'"

  // ------------------------------------------------------------ settings

  /** The column lists that map the compartments onto each other. */
  datatype MergeColumns = MergeColumns(cells: seq<string>, nuclei: seq<string>,
                                       cytoplasmToCells: seq<string>, cytoplasmToNuclei: seq<string>)

  const DefaultMergeColumns: MergeColumns := MergeColumns(
    ["Metadata_Cells_ImageNumber", "Metadata_Cells_ObjectNumber"],
    ["Metadata_Nuclei_ImageNumber", "Metadata_Nuclei_ObjectNumber"],
    ["Metadata_Cytoplasm_ImageNumber", "Metadata_Cytoplasm_Parent_Cells"],
    ["Metadata_Cytoplasm_ImageNumber", "Metadata_Cytoplasm_Parent_Nuclei"])

  /** The three keyword arguments the constructor pops from `kwargs`; `None` where absent. */
  datatype Kwargs = Kwargs(compression: Option<string>, floatFormat: Option<string>, whitenCenter: Option<bool>)

  /** The object's fields. */
  datatype Settings = Settings(directory: string, compartments: Util.CompartmentsArg, mergeColumns: MergeColumns,
                               outputSites: bool, normalizeOutput: bool, normalizeSampleSubset: string,
                               normalizeMethod: string, compression: string, floatFormat: Option<string>,
                               whitenCenter: bool)

  function Titled(names: seq<string>): (r: seq<string>)
    ensures |r| == |names|
  {
    seq(|names|, i requires 0 <= i < |names| => Title(names[i]))
  }

  /**
   * `_capitalize_compartments`: a list is title-cased entry by entry; any
   * other value reaches the branch that names an undefined variable.
   */
  function CapitalizeCompartments(c: Util.CompartmentsArg): (r: Result<Util.CompartmentsArg>)
    ensures r.Ok? <==> c.CompartmentList?
    ensures r.Ok? ==> r.value.CompartmentList? && |r.value.names| == |c.names|
                      && forall i :: 0 <= i < |c.names| ==> r.value.names[i] == Title(c.names[i])
    ensures r.Err? ==> r.error == Error(NameError, UndefinedCompartments)
  {
    if c.CompartmentList? then Ok(Util.CompartmentList(Titled(c.names)))
    else Raise(NameError, UndefinedCompartments)
  }

  /** Capitalizing title-cased compartments changes nothing. */
  lemma CapitalizeIdempotent(c: Util.CompartmentsArg)
    requires c.CompartmentList?
    ensures CapitalizeCompartments(CapitalizeCompartments(c).value) == CapitalizeCompartments(c)
  {
    var t := Titled(c.names);
    forall i | 0 <= i < |t| ensures Titled(t)[i] == t[i] {
      TitleIdempotent(c.names[i]);
    }
    assert Titled(t) == t;
  }

  /** The object's state after `_capitalize_compartments`, and how it ended. */
  function Capitalized(s: Settings): (r: (Settings, Outcome))
    ensures r.1.Pass? <==> s.compartments.CompartmentList?
    ensures r.1.Fail? ==> r.0 == s
  {
    var c := CapitalizeCompartments(s.compartments);
    if c.Err? then (s, Fail(c.error)) else (s.(compartments := c.value), Pass)
  }

  /**
   * `PooledCellPainting(...)` without the prebuilt file list: the
   * compartments are checked, title-cased, and must include "Cytoplasm".
   */
  function Construct(directory: string, compartments: Util.CompartmentsArg, merge: MergeColumns, outputSites: bool,
                     normalizeOutput: bool, sampleSubset: string, normMethod: string, kwargs: Kwargs)
    : (r: Result<Settings>)
    ensures r.Ok? <==> Util.CheckCompartments(compartments).Pass? && compartments.CompartmentList?
                       && "Cytoplasm" in Titled(compartments.names)
    ensures r.Ok? ==> r.value.compartments == CapitalizeCompartments(compartments).value
    ensures r.Ok? ==> r.value.compression == kwargs.compression.GetOr("gzip")
                      && r.value.floatFormat == kwargs.floatFormat
                      && r.value.whitenCenter == kwargs.whitenCenter.GetOr(true)
    ensures Util.CheckCompartments(compartments).Pass? && !compartments.CompartmentList? ==>
              r == Raise(NameError, UndefinedCompartments)
    ensures (Util.CheckCompartments(compartments).Pass? && compartments.CompartmentList?
             && "Cytoplasm" !in Titled(compartments.names)) ==> r == Raise(AssertionError, CytoplasmMessage)
  {
    var raw := Settings(directory, compartments, merge, outputSites, normalizeOutput, sampleSubset, normMethod,
                        kwargs.compression.GetOr("gzip"), kwargs.floatFormat, kwargs.whitenCenter.GetOr(true));
    var checked := Util.CheckCompartments(compartments);
    if checked.Fail? then Err(checked.error)
    else
      var (s, capitalized) := Capitalized(raw);
      if capitalized.Fail? then Err(capitalized.error)
      else if "Cytoplasm" !in s.compartments.names then Raise(AssertionError, CytoplasmMessage)
      else Ok(s)
  }

  /** A built object holds a title-cased list that includes "Cytoplasm", which capitalizing again keeps. */
  lemma ConstructedCompartments(directory: string, compartments: Util.CompartmentsArg, merge: MergeColumns,
                                outputSites: bool, normalizeOutput: bool, sampleSubset: string, normMethod: string,
                                kwargs: Kwargs)
    requires Construct(directory, compartments, merge, outputSites, normalizeOutput, sampleSubset, normMethod, kwargs).Ok?
    ensures var s := Construct(directory, compartments, merge, outputSites, normalizeOutput, sampleSubset, normMethod,
                               kwargs).value;
      s.compartments.CompartmentList? && "Cytoplasm" in s.compartments.names
      && Capitalized(s) == (s, Pass)
  {
    CapitalizeIdempotent(compartments);
  }

  /** `set_compartments`: the check, the assignment, then `_capitalize_compartments`. */
  function WithCompartments(s: Settings, c: Util.CompartmentsArg): (r: (Settings, Outcome))
    ensures Util.CheckCompartments(c).Fail? ==> r == (s, Util.CheckCompartments(c))
  {
    var checked := Util.CheckCompartments(c);
    if checked.Fail? then (s, checked) else Capitalized(s.(compartments := c))
  }

  /**
   * A valid single compartment name is stored before the capitalization
   * raises, so the object keeps the string as given.
   */
  lemma SetSingleCompartmentStored(s: Settings, name: string)
    requires Lower(name) in Util.ValidCompartments
    ensures WithCompartments(s, Util.OneCompartment(name))
      == (s.(compartments := Util.OneCompartment(name)), Fail(Error(NameError, UndefinedCompartments)))
  {
  }

  /** `process_batch` needs per-site output: it is switched on, with one warning when it was off. */
  function ForcedOutputSites(s: Settings): (r: (Settings, bool))
    ensures r.0 == s.(outputSites := true)
    ensures r.1 <==> !s.outputSites
  {
    if !s.outputSites then (s.(outputSites := true), true) else (s, false)
  }

  /** A second call warns no more. */
  lemma ForcedOutputSitesOnce(s: Settings)
    ensures ForcedOutputSites(ForcedOutputSites(s).0) == (ForcedOutputSites(s).0, false)
  {
  }

  // ------------------------------------------------------------ columns

  /** Whether a column name contains "Barcode". */
  function HasBarcode(): string -> bool
  {
    c => Contains(c, "Barcode")
  }

  /** `get_barcode_cols`: the columns whose name contains "Barcode", in frame order. */
  function GetBarcodeCols(columns: seq<string>): (r: seq<string>)
    ensures forall c :: c in r <==> c in columns && Contains(c, "Barcode")
    ensures Subseq(r, columns)
  {
    var r := Filter(columns, HasBarcode());
    forall c ensures c in r <==> c in columns && Contains(c, "Barcode") {
      FilterMember(columns, HasBarcode(), c);
    }
    FilterSubseq(columns, HasBarcode());
    r
  }

  function Prefixed(prefix: string, names: seq<string>): (r: seq<string>)
    ensures |r| == |names|
  {
    seq(|names|, i requires 0 <= i < |names| => prefix + names[i])
  }

  function MetadataPrefix(compartment: string): string
  {
    "Metadata_" + Title(compartment) + "_"
  }

  function FeaturePrefix(compartment: string): string
  {
    Title(compartment) + "_"
  }

  /**
   * The labelled columns: the metadata columns in list order with the
   * metadata prefix, then every other column in frame order with the
   * feature prefix; a metadata column the frame lacks is a `KeyError`.
   */
  function Labelled(columns: seq<string>, compartment: string, meta: seq<string>): (r: Result<seq<string>>)
    ensures r.Ok? <==> forall m :: m in meta ==> m in columns
    ensures r.Err? ==> r.error.kind == KeyError
    ensures r.Ok? ==> |r.value| == |meta| + |Filter(columns, NotIn(meta))|
    ensures r.Ok? ==> forall i :: 0 <= i < |meta| ==> r.value[i] == MetadataPrefix(compartment) + meta[i]
    ensures r.Ok? ==> var rest := Filter(columns, NotIn(meta));
      forall j :: 0 <= j < |rest| ==> r.value[|meta| + j] == FeaturePrefix(compartment) + rest[j]
  {
    var missing := Filter(meta, NotIn(columns));
    forall m | m in meta ensures m in columns <==> m !in missing {
      FilterMember(meta, NotIn(columns), m);
    }
    if missing != [] then Raise(KeyError, Join(missing, ", ") + " not in index")
    else Ok(Prefixed(MetadataPrefix(compartment), meta) + Prefixed(FeaturePrefix(compartment), Filter(columns, NotIn(meta))))
  }

  /** The labelled names come from the metadata list and the remaining columns, under their prefixes. */
  lemma LabelledFrom(columns: seq<string>, compartment: string, meta: seq<string>, x: string)
    requires Labelled(columns, compartment, meta).Ok?
    requires x in Labelled(columns, compartment, meta).value
    ensures (exists m :: m in meta && x == MetadataPrefix(compartment) + m)
            || (exists c :: c in columns && c !in meta && x == FeaturePrefix(compartment) + c)
  {
    var mp, fp := MetadataPrefix(compartment), FeaturePrefix(compartment);
    var rest := Filter(columns, NotIn(meta));
    var r := Labelled(columns, compartment, meta).value;
    var i :| 0 <= i < |r| && r[i] == x;
    if i >= |meta| {
      var c := rest[i - |meta|];
      FilterMember(columns, NotIn(meta), c);
      assert x == fp + c;
    } else {
      assert x == mp + meta[i];
    }
  }

  /** Every metadata column appears under the metadata prefix. */
  lemma LabelledMetadata(columns: seq<string>, compartment: string, meta: seq<string>, m: string)
    requires Labelled(columns, compartment, meta).Ok? && m in meta
    ensures MetadataPrefix(compartment) + m in Labelled(columns, compartment, meta).value
  {
    var i :| 0 <= i < |meta| && meta[i] == m;
    assert Labelled(columns, compartment, meta).value[i] == MetadataPrefix(compartment) + m;
  }

  /** Every other column appears under the feature prefix. */
  lemma LabelledFeature(columns: seq<string>, compartment: string, meta: seq<string>, c: string)
    requires Labelled(columns, compartment, meta).Ok? && c in columns && c !in meta
    ensures FeaturePrefix(compartment) + c in Labelled(columns, compartment, meta).value
  {
    var fp := FeaturePrefix(compartment);
    var rest := Filter(columns, NotIn(meta));
    var r := Labelled(columns, compartment, meta).value;
    FilterMember(columns, NotIn(meta), c);
    var j :| 0 <= j < |rest| && rest[j] == c;
    assert r[|meta| + j] == fp + c;
  }

  /**
   * `label_features`: the compartment is checked first; then, with
   * `map_barcode_as_metadata`, the barcode columns are appended to the
   * caller's metadata list, and the columns are labelled with that list.
   * The first component is the caller's list afterwards.
   */
  function LabelFeaturesSpec(columns: seq<string>, compartment: string, meta: seq<string>, mapBarcode: bool)
    : (r: (seq<string>, Result<seq<string>>))
    ensures Util.CheckCompartments(Util.OneCompartment(compartment)).Fail? ==> r.0 == meta && r.1.Err?
    ensures Util.CheckCompartments(Util.OneCompartment(compartment)).Pass? ==>
              r.0 == meta + (if mapBarcode then GetBarcodeCols(columns) else [])
  {
    var checked := Util.CheckCompartments(Util.OneCompartment(compartment));
    if checked.Fail? then (meta, Err(checked.error))
    else
      var grown := if mapBarcode then meta + GetBarcodeCols(columns) else meta;
      (grown, Labelled(columns, compartment, grown))
  }

  /** With the barcode columns mapped, they are labelled as metadata and never as features. */
  lemma BarcodesLabelledAsMetadata(columns: seq<string>, compartment: string, meta: seq<string>, c: string)
    requires LabelFeaturesSpec(columns, compartment, meta, true).1.Ok?
    requires c in columns && Contains(c, "Barcode")
    ensures MetadataPrefix(compartment) + c in LabelFeaturesSpec(columns, compartment, meta, true).1.value
    ensures c !in Filter(columns, NotIn(LabelFeaturesSpec(columns, compartment, meta, true).0))
  {
    var grown := LabelFeaturesSpec(columns, compartment, meta, true).0;
    assert c in grown;
    LabelledMetadata(columns, compartment, grown, c);
    FilterMember(columns, NotIn(grown), c);
  }

  // ------------------------------------------------------------ merging

  /** `name in self.compartments`: list membership, or a substring test on a string. */
  predicate Includes(c: Util.CompartmentsArg, name: string)
    requires !c.OtherValue?
  {
    if c.CompartmentList? then name in c.names else Contains(c.name, name)
  }

  /** `dict[key]`, or `KeyError`. */
  function Lookup<F>(dict: map<string, F>, key: string): (r: Result<F>)
    ensures r.Ok? <==> key in dict
    ensures r.Ok? ==> r.value == dict[key]
  {
    if key in dict then Ok(dict[key]) else Raise(KeyError, "'" + key + "'")
  }

  /** The joins onto the Cytoplasm frame: Cells on its left, then Nuclei on the right of the result. */
  function JoinOntoCytoplasm<F>(compartments: Util.CompartmentsArg, dict: map<string, F>, cols: MergeColumns,
                                join: (F, F, seq<string>, seq<string>) -> F): (r: Result<F>)
    requires !compartments.OtherValue?
    ensures r.Ok? <==> "Cytoplasm" in dict && (Includes(compartments, "Cells") ==> "Cells" in dict)
                       && (Includes(compartments, "Nuclei") ==> "Nuclei" in dict)
    ensures r.Ok? && Includes(compartments, "Cells") && Includes(compartments, "Nuclei") ==>
              r.value == join(join(dict["Cells"], dict["Cytoplasm"], cols.cells, cols.cytoplasmToCells),
                              dict["Nuclei"], cols.cytoplasmToNuclei, cols.nuclei)
    ensures r.Ok? && !Includes(compartments, "Cells") && !Includes(compartments, "Nuclei") ==>
              r.value == dict["Cytoplasm"]
  {
    var cytoplasm := Lookup(dict, "Cytoplasm");
    if cytoplasm.Err? then cytoplasm
    else
      var withCells :=
        if !Includes(compartments, "Cells") then cytoplasm
        else if "Cells" !in dict then Lookup(dict, "Cells")
        else Ok(join(dict["Cells"], cytoplasm.value, cols.cells, cols.cytoplasmToCells));
      if withCells.Err? then withCells
      else if !Includes(compartments, "Nuclei") then withCells
      else if "Nuclei" !in dict then Lookup(dict, "Nuclei")
      else Ok(join(withCells.value, dict["Nuclei"], cols.cytoplasmToNuclei, cols.nuclei))
  }

  /**
   * `merge_compartments` as written: with one frame it looks the frame up
   * under `self.compartments` itself, which for a list is unhashable.
   */
  function MergeCompartmentsAsWritten<F>(compartments: Util.CompartmentsArg, dict: map<string, F>, cols: MergeColumns,
                                         join: (F, F, seq<string>, seq<string>) -> F): (r: Result<F>)
    requires !compartments.OtherValue?
    ensures |dict| == 1 && compartments.CompartmentList? ==> r == Raise(TypeError, UnhashableList)
    ensures |dict| != 1 ==> r == JoinOntoCytoplasm(compartments, dict, cols, join)
  {
    if |dict| == 1 then
      if compartments.CompartmentList? then Raise(TypeError, UnhashableList) else Lookup(dict, compartments.name)
    else JoinOntoCytoplasm(compartments, dict, cols, join)
  }

  /** The frame of a one-frame dictionary. */
  function Sole<F>(dict: map<string, F>): (r: F)
    requires |dict| == 1
    ensures exists k :: dict == map[k := r]
  {
    var k :| k in dict;
    assert dict == map[k := dict[k]] by {
      var rest := dict.Keys - {k};
      assert |rest| == 0;
      forall j | j in dict ensures j == k {
        assert j !in rest;
      }
    }
    dict[k]
  }

  /** `merge_compartments` as intended: one frame is returned unchanged. */
  function MergeCompartments<F>(compartments: Util.CompartmentsArg, dict: map<string, F>, cols: MergeColumns,
                                join: (F, F, seq<string>, seq<string>) -> F): (r: Result<F>)
    requires !compartments.OtherValue?
    ensures |dict| == 1 ==> r.Ok? && exists k :: dict == map[k := r.value]
    ensures |dict| != 1 ==> r == JoinOntoCytoplasm(compartments, dict, cols, join)
  {
    if |dict| == 1 then Ok(Sole(dict)) else JoinOntoCytoplasm(compartments, dict, cols, join)
  }

  /**
   * A built object always holds a list, so as written it cannot merge a
   * dictionary with one frame (for example the one of
   * `compartments=["Cytoplasm"]`); the intended merge returns that frame.
   */
  lemma OneFrameUnhashable<F>(directory: string, compartments: Util.CompartmentsArg, merge: MergeColumns,
                              outputSites: bool, normalizeOutput: bool, sampleSubset: string, normMethod: string,
                              kwargs: Kwargs, dict: map<string, F>, join: (F, F, seq<string>, seq<string>) -> F)
    requires Construct(directory, compartments, merge, outputSites, normalizeOutput, sampleSubset, normMethod, kwargs).Ok?
    requires |dict| == 1
    ensures var built := Construct(directory, compartments, merge, outputSites, normalizeOutput, sampleSubset,
                                   normMethod, kwargs).value;
      MergeCompartmentsAsWritten(built.compartments, dict, merge, join) == Raise(TypeError, UnhashableList)
      && MergeCompartments(built.compartments, dict, merge, join).Ok?
      && exists k :: dict == map[k := MergeCompartments(built.compartments, dict, merge, join).value]
  {
  }

  // ------------------------------------------------------------ concatenation

  /** The two batch metadata columns that lead the concatenated frame. */
  const BatchMetadataCols: seq<string> := ["Metadata_Batch", "Metadata_Site"]

  /** Whether a column is one of the other metadata columns. */
  function OtherMetadata(): string -> bool
  {
    x => StartsWith(x, "Metadata_") && x !in BatchMetadataCols
  }

  /** Whether a column belongs to compartment `comp`. */
  function OfCompartment(comp: string): string -> bool
  {
    x => StartsWith(x, Title(comp) + "_")
  }

  /** What `for comp in self.compartments` visits: the list, or the characters of a string. */
  function Iterated(c: Util.CompartmentsArg): (r: seq<string>)
    requires !c.OtherValue?
    ensures c.CompartmentList? ==> r == c.names
    ensures c.OneCompartment? ==> |r| == |c.name| && forall i :: 0 <= i < |r| ==> r[i] == [c.name[i]]
  {
    if c.CompartmentList? then c.names else seq(|c.name|, i requires 0 <= i < |c.name| => [c.name[i]])
  }

  /** The compartment columns, compartment after compartment, each group in frame order. */
  function CompartmentColumns(columns: seq<string>, comps: seq<string>): seq<string>
    decreases |comps|
  {
    if comps == [] then []
    else CompartmentColumns(columns, comps[..|comps| - 1]) + Filter(columns, OfCompartment(comps[|comps| - 1]))
  }

  lemma CompartmentColumnsNext(columns: seq<string>, comps: seq<string>, i: nat)
    requires i < |comps|
    ensures CompartmentColumns(columns, comps[..i + 1])
      == CompartmentColumns(columns, comps[..i]) + Filter(columns, OfCompartment(comps[i]))
  {
    assert comps[..i + 1][..i] == comps[..i];
  }

  /** A column is among the compartment columns exactly when it carries one compartment's prefix. */
  lemma {:induction false} CompartmentColumnsMember(columns: seq<string>, comps: seq<string>, x: string)
    ensures x in CompartmentColumns(columns, comps) <==>
      x in columns && exists i :: 0 <= i < |comps| && StartsWith(x, Title(comps[i]) + "_")
    decreases |comps|
  {
    if comps != [] {
      var init, last := comps[..|comps| - 1], comps[|comps| - 1];
      CompartmentColumnsMember(columns, init, x);
      FilterMember(columns, OfCompartment(last), x);
      if exists i :: 0 <= i < |comps| && StartsWith(x, Title(comps[i]) + "_") {
        var i :| 0 <= i < |comps| && StartsWith(x, Title(comps[i]) + "_");
        if i < |init| {
          assert init[i] == comps[i];
        }
      }
      if exists i :: 0 <= i < |init| && StartsWith(x, Title(init[i]) + "_") {
        var i :| 0 <= i < |init| && StartsWith(x, Title(init[i]) + "_");
        assert comps[i] == init[i];
      }
    }
  }

  /** The column order of `concatenate_sites`. */
  function SiteColumnOrder(columns: seq<string>, comps: seq<string>): seq<string>
  {
    BatchMetadataCols + Filter(columns, OtherMetadata()) + CompartmentColumns(columns, comps)
  }

  /**
   * The order starts with Metadata_Batch and Metadata_Site; every other
   * column kept is a metadata column or a compartment column, and any
   * column that is neither is dropped.
   */
  lemma SiteColumnOrderMembers(columns: seq<string>, comps: seq<string>, x: string)
    ensures SiteColumnOrder(columns, comps)[..2] == BatchMetadataCols
    ensures x in SiteColumnOrder(columns, comps) <==>
      x in BatchMetadataCols
      || (x in columns && (StartsWith(x, "Metadata_") || exists i :: 0 <= i < |comps| && StartsWith(x, Title(comps[i]) + "_")))
  {
    FilterMember(columns, OtherMetadata(), x);
    CompartmentColumnsMember(columns, comps, x);
  }

  /** The loop of `concatenate_sites` that appends each compartment's columns in turn. */
  method AppendCompartmentColumns(columns: seq<string>, comps: seq<string>) returns (grouped: seq<string>)
    ensures grouped == CompartmentColumns(columns, comps)
  {
    grouped := [];
    for i := 0 to |comps|
      invariant grouped == CompartmentColumns(columns, comps[..i])
    {
      CompartmentColumnsNext(columns, comps, i);
      grouped := grouped + Filter(columns, OfCompartment(comps[i]));
    }
    assert comps[..|comps|] == comps;
  }

  /** The caller's metadata list, which `label_features` extends in place. */
  class NameList {
    var items: seq<string>

    constructor (items: seq<string>)
      ensures this.items == items
    {
      this.items := items;
    }
  }

  /** The class itself, over the fields of `Settings`. */
  class PooledCellPainting {
    var directory: string
    var compartments: Util.CompartmentsArg
    var mergeColumns: MergeColumns
    var outputSites: bool
    var normalizeOutput: bool
    var normalizeSampleSubset: string
    var normalizeMethod: string
    var compression: string
    var floatFormat: Option<string>
    var whitenCenter: bool

    function Fields(): Settings
      reads this
    {
      Settings(directory, compartments, mergeColumns, outputSites, normalizeOutput, normalizeSampleSubset,
               normalizeMethod, compression, floatFormat, whitenCenter)
    }

    constructor (s: Settings)
      ensures Fields() == s
    {
      directory := s.directory;
      compartments := s.compartments;
      mergeColumns := s.mergeColumns;
      outputSites := s.outputSites;
      normalizeOutput := s.normalizeOutput;
      normalizeSampleSubset := s.normalizeSampleSubset;
      normalizeMethod := s.normalizeMethod;
      compression := s.compression;
      floatFormat := s.floatFormat;
      whitenCenter := s.whitenCenter;
    }

    /** `PooledCellPainting(...)` with `prebuild_file_list=False`: an object, or the first exception. */
    static method Create(directory: string, compartments: Util.CompartmentsArg, merge: MergeColumns, outputSites: bool,
                         normalizeOutput: bool, sampleSubset: string, normMethod: string, kwargs: Kwargs)
      returns (r: Result<PooledCellPainting>)
      ensures var spec := Construct(directory, compartments, merge, outputSites, normalizeOutput, sampleSubset, normMethod,
                                    kwargs);
        (r.Err? <==> spec.Err?) && (r.Err? ==> r.error == spec.error)
        && (r.Ok? ==> fresh(r.value) && r.value.Fields() == spec.value)
    {
      var obj := new PooledCellPainting(Settings(directory, compartments, merge, outputSites, normalizeOutput,
                                                 sampleSubset, normMethod, kwargs.compression.GetOr("gzip"),
                                                 kwargs.floatFormat, kwargs.whitenCenter.GetOr(true)));
      var checked := Util.CheckCompartments(obj.compartments);
      if checked.Fail? {
        return Err(checked.error);
      }
      var capitalized := obj.CapitalizeCompartments();
      if capitalized.Fail? {
        return Err(capitalized.error);
      }
      if obj.compartments.CompartmentList? && "Cytoplasm" !in obj.compartments.names {
        return Raise(AssertionError, CytoplasmMessage);
      }
      return Ok(obj);
    }

    /** `_capitalize_compartments`. */
    method CapitalizeCompartments() returns (r: Outcome)
      modifies this
      ensures (Fields(), r) == Capitalized(old(Fields()))
    {
      if compartments.CompartmentList? {
        compartments := Util.CompartmentList(Titled(compartments.names));
        return Pass;
      }
      return Fail(Error(NameError, UndefinedCompartments));
    }

    method SetDirectory(directory: string)
      modifies this
      ensures Fields() == old(Fields()).(directory := directory)
    {
      this.directory := directory;
    }

    /** `set_compartments`. */
    method SetCompartments(c: Util.CompartmentsArg) returns (r: Outcome)
      modifies this
      ensures (Fields(), r) == WithCompartments(old(Fields()), c)
    {
      var checked := Util.CheckCompartments(c);
      if checked.Fail? {
        return checked;
      }
      compartments := c;
      r := CapitalizeCompartments();
    }

    /** The start of `process_batch`: per-site output is switched on, warning when it was off. */
    method ForceOutputSites() returns (warned: bool)
      modifies this
      ensures (Fields(), warned) == ForcedOutputSites(old(Fields()))
    {
      warned := false;
      if !outputSites {
        outputSites := true;
        warned := true;
      }
    }

    /** `get_barcode_cols`. */
    method GetBarcodeColumns(columns: seq<string>) returns (r: seq<string>)
      ensures r == GetBarcodeCols(columns)
    {
      r := GetBarcodeCols(columns);
    }

    /** `label_features`, on the frame's column names, extending the caller's list in place. */
    method LabelFeatures(columns: seq<string>, compartment: string, metadataColumns: NameList, mapBarcode: bool)
      returns (r: Result<seq<string>>)
      modifies metadataColumns
      ensures (metadataColumns.items, r) == LabelFeaturesSpec(columns, compartment, old(metadataColumns.items), mapBarcode)
    {
      var checked := Util.CheckCompartments(Util.OneCompartment(compartment));
      if checked.Fail? {
        return Err(checked.error);
      }
      if mapBarcode {
        var barcodes := GetBarcodeColumns(columns);
        metadataColumns.items := metadataColumns.items + barcodes;
      }
      r := Labelled(columns, compartment, metadataColumns.items);
    }

    /** The column order of `concatenate_sites`. */
    method ConcatenateSitesColumns(columns: seq<string>) returns (order: seq<string>)
      requires !compartments.OtherValue?
      ensures order == SiteColumnOrder(columns, Iterated(compartments))
    {
      var comps := Iterated(compartments);
      var grouped := AppendCompartmentColumns(columns, comps);
      order := BatchMetadataCols + Filter(columns, OtherMetadata()) + grouped;
    }
  }
}
