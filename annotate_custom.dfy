/**
 * The CMAP annotation of cyto_utils/annotate_custom.py: `annotate_cmap`
 * adds the CMAP metadata columns to a profile frame, and `cp_clean` renames
 * two image metadata columns.
 *
 * `assign` adds a column at the end of the frame or replaces one in place;
 * `.loc[mask, column] = value` overwrites the masked cells of an existing
 * column on the annotated copy, which `Profiles.SetWhere` does row by row.
 */
module AnnotateCustom {
  import opened Wrappers
  import opened Seqs
  import opened Strings
  import opened Frames

  const PertOpts: seq<string> := ["none", "chemical", "genetic"]
  const ModeMessage: string := "perturbation mode must be one of ['none', 'chemical', 'genetic']"
  const CmapMessage: string := "Are you sure this is a CMAP file? 'Metadata_broad_sample column not found.'"

  const BroadSample: string := "Metadata_broad_sample"
  const SampleType: string := "Metadata_broad_sample_type"
  const PertId: string := "Metadata_pert_id"
  const PertMfcId: string := "Metadata_pert_mfc_id"
  const PertWell: string := "Metadata_pert_well"
  const PertIdVendor: string := "Metadata_pert_id_vendor"
  const PertIname: string := "Metadata_pert_iname"
  const PertMfcDesc: string := "Metadata_pert_mfc_desc"
  const PertName: string := "Metadata_pert_name"
  const CellId: string := "Metadata_cell_id"
  const MmolesPerLiter: string := "Metadata_mmoles_per_liter"
  const Solvent: string := "Metadata_solvent"
  const PertVehicle: string := "Metadata_pert_vehicle"
  const MgPerMl: string := "Metadata_mg_per_ml"
  const PertType: string := "Metadata_pert_type"

  // ------------------------------------------------------------ frame steps

  /** A column holding `v` in every row. */
  function Constant(n: nat, v: Cell): (r: seq<Cell>)
    ensures |r| == n && forall i :: 0 <= i < n ==> r[i] == v
  {
    seq(n, i => v)
  }

  /** Every stored column has one cell per row; `Valid` adds the order of the names. */
  predicate Shaped(f: Frame)
  {
    forall c :: c in f.data ==> |f.data[c]| == f.nrows
  }

  /** `assign(name=column)`: a new column goes last, an existing one is replaced where it stands. */
  function Assign(f: Frame, name: string, column: seq<Cell>): (r: Frame)
    requires Shaped(f) && |column| == f.nrows
    ensures Shaped(r) && r.nrows == f.nrows && r.data == f.data[name := column]
    ensures r.columns == if name in f.data then f.columns else f.columns + [name]
  {
    if name in f.data then Frame(f.columns, f.data[name := column], f.nrows)
    else Frame(f.columns + [name], f.data[name := column], f.nrows)
  }

  /** `assign` keeps a well-formed frame well formed. */
  lemma AssignValid(f: Frame, name: string, column: seq<Cell>)
    requires Valid(f) && |column| == f.nrows
    ensures Valid(Assign(f, name, column))
  {
    if name !in f.data {
      assert name !in f.columns;
      NoDupConcat(f.columns, [name]);
    }
  }

  /** The column with `v` in the masked rows and its old cells elsewhere. */
  function Masked(column: seq<Cell>, mask: seq<bool>, v: Cell): (r: seq<Cell>)
    requires |mask| == |column|
    ensures |r| == |column|
    ensures forall i :: 0 <= i < |column| ==> r[i] == if mask[i] then v else column[i]
  {
    seq(|column|, i requires 0 <= i < |column| => if mask[i] then v else column[i])
  }

  /** `.loc[mask, name] = v` on an existing column. */
  function SetWhere(f: Frame, name: string, mask: seq<bool>, v: Cell): (r: Frame)
    requires Shaped(f) && name in f.data && |mask| == f.nrows
    ensures Shaped(r) && r.columns == f.columns && r.nrows == f.nrows
    ensures r.data == f.data[name := Masked(f.data[name], mask, v)]
    ensures Valid(f) ==> Valid(r)
  {
    Frame(f.columns, f.data[name := Masked(f.data[name], mask, v)], f.nrows)
  }

  /** The rows whose cell in `column` is `v`. */
  function Equals(column: seq<Cell>, v: Cell): (r: seq<bool>)
    ensures |r| == |column| && forall i :: 0 <= i < |column| ==> (r[i] <==> column[i] == v)
  {
    seq(|column|, i requires 0 <= i < |column| => column[i] == v)
  }

  // ------------------------------------------------------------ perturbation ids

  predicate IdChar(c: char) { 'A' <= c <= 'Z' || '0' <= c <= '9' }

  /** The length of the leading run of `[A-Z0-9]` characters. */
  function IdRun(s: string): (n: nat)
    ensures n <= |s|
    ensures forall i :: 0 <= i < n ==> IdChar(s[i])
    ensures n == |s| || !IdChar(s[n])
  {
    if s != [] && IdChar(s[0]) then 1 + IdRun(s[1..]) else 0
  }

  /** Whether `BRD[-N][A-Z0-9]` starts at `i`. */
  predicate MatchAt(s: string, i: nat)
  {
    i + 5 <= |s| && s[i..i + 3] == "BRD" && s[i + 3] in {'-', 'N'} && IdChar(s[i + 4])
  }

  /** The greedy match `BRD[-N][A-Z0-9]+` at `i`. */
  function MatchFrom(s: string, i: nat): (r: string)
    requires MatchAt(s, i)
    ensures |r| >= 5 && i + |r| <= |s| && r == s[i..i + |r|]
  {
    s[i..i + 4 + IdRun(s[i + 4..])]
  }

  /** The search from position `i` on. */
  function SearchFrom(s: string, i: nat): (r: Option<string>)
    decreases |s| - i
  {
    if i + 5 > |s| then None
    else if MatchAt(s, i) then Some(MatchFrom(s, i))
    else SearchFrom(s, i + 1)
  }

  lemma {:induction false} SearchFromFinds(s: string, i: nat)
    ensures SearchFrom(s, i).Some? <==> exists j: nat :: i <= j && MatchAt(s, j)
    ensures SearchFrom(s, i).Some? ==> exists j: nat :: i <= j && MatchAt(s, j) && SearchFrom(s, i).value == MatchFrom(s, j)
                                                   && forall k :: i <= k < j ==> !MatchAt(s, k)
    decreases |s| - i
  {
    if i + 5 <= |s| && !MatchAt(s, i) {
      SearchFromFinds(s, i + 1);
      if exists j: nat :: i <= j && MatchAt(s, j) {
        var j: nat :| i <= j && MatchAt(s, j);
        assert j != i;
      }
    }
  }

  /** `str.extract(r"(BRD[-N][A-Z0-9]+)")` on one string: the leftmost, longest match. */
  function ExtractBrd(s: string): (r: Option<string>)
    ensures r.Some? <==> exists j: nat :: MatchAt(s, j)
    ensures r.Some? ==> exists j: nat :: MatchAt(s, j) && r.value == MatchFrom(s, j) && forall k :: 0 <= k < j ==> !MatchAt(s, k)
  {
    SearchFromFinds(s, 0);
    SearchFrom(s, 0)
  }

  /**
   * A broad sample `id + rest` where `id` is "BRD", a dash or "N", and a run
   * of capitals and digits that `rest` does not continue, has perturbation
   * id `id`; for example "BRD-K76022557-003-28-9" gives "BRD-K76022557".
   */
  lemma ExtractBrdPrefix(sep: char, run: string, rest: string)
    requires sep in {'-', 'N'} && run != [] && forall i :: 0 <= i < |run| ==> IdChar(run[i])
    requires rest == [] || !IdChar(rest[0])
    ensures ExtractBrd("BRD" + [sep] + run + rest) == Some("BRD" + [sep] + run)
  {
    var s := "BRD" + [sep] + run + rest;
    assert s[..3] == "BRD" && s[3] == sep && s[4] == run[0];
    assert MatchAt(s, 0);
    IdRunPrefix(run, rest);
    assert s[4..] == run + rest;
    assert s[..4 + |run|] == "BRD" + [sep] + run;
  }

  lemma {:induction false} IdRunPrefix(run: string, rest: string)
    requires forall i :: 0 <= i < |run| ==> IdChar(run[i])
    requires rest == [] || !IdChar(rest[0])
    ensures IdRun(run + rest) == |run|
  {
    if run != [] {
      assert (run + rest)[1..] == run[1..] + rest;
      IdRunPrefix(run[1..], rest);
    } else {
      assert run + rest == rest;
    }
  }

  /** The perturbation id of one broad sample cell: missing when it is not a string or has no match. */
  function PertIdOf(c: Cell): (r: Cell)
    ensures r != Null ==> c.Str? && ExtractBrd(c.s).Some? && r == Str(ExtractBrd(c.s).value)
    ensures c.Str? && ExtractBrd(c.s).Some? ==> r != Null
  {
    if c.Str? && ExtractBrd(c.s).Some? then Str(ExtractBrd(c.s).value) else Null
  }

  function PertIds(column: seq<Cell>): (r: seq<Cell>)
    ensures |r| == |column| && forall i :: 0 <= i < |column| ==> r[i] == PertIdOf(column[i])
  {
    seq(|column|, i requires 0 <= i < |column| => PertIdOf(column[i]))
  }

  // ------------------------------------------------------------ the modes

  /** The chemical sample type of one broad sample: "DMSO" or missing is a control. */
  function ChemicalType(c: Cell): Cell
  {
    if c == Str("DMSO") || c == Null then Str("control") else Str("trt")
  }

  function ChemicalTypes(column: seq<Cell>): (r: seq<Cell>)
    ensures |r| == |column| && forall i :: 0 <= i < |column| ==> r[i] == ChemicalType(column[i])
  {
    seq(|column|, i requires 0 <= i < |column| => ChemicalType(column[i]))
  }

  /** The dose columns of control rows are zeroed when present. */
  function ZeroControls(f: Frame, name: string): (r: Frame)
    requires Shaped(f) && SampleType in f.data
    ensures Shaped(r) && r.columns == f.columns && r.nrows == f.nrows
    ensures Valid(f) ==> Valid(r)
    ensures name !in f.data ==> r == f
    ensures name in f.data ==> r.data == f.data[name := Masked(f.data[name], Equals(f.data[SampleType], Str("control")), Num(0.0))]
  {
    if name in f.data then SetWhere(f, name, Equals(f.data[SampleType], Str("control")), Num(0.0)) else f
  }

  /** The chemical block as the source runs it, step by step. */
  function ChemicalSteps(f: Frame): (r: Frame)
    requires Shaped(f) && BroadSample in f.data
    ensures Shaped(r) && r.nrows == f.nrows
  {
    var typed := Assign(f, SampleType, ChemicalTypes(f.data[BroadSample]));
    var dmso := SetWhere(typed, BroadSample, Equals(typed.data[SampleType], Str("control")), Str("DMSO"));
    var empty := SetWhere(dmso, SampleType, Equals(dmso.data[BroadSample], Str("empty")), Str("empty"));
    var mmoles := ZeroControls(empty, MmolesPerLiter);
    var vehicle := if Solvent in mmoles.data then Assign(mmoles, PertVehicle, mmoles.data[Solvent]) else mmoles;
    ZeroControls(vehicle, MgPerMl)
  }

  /** The sample type of a chemical row: control, then "empty", then treatment. */
  function ChemicalRowType(c: Cell): Cell
  {
    if ChemicalType(c) == Str("control") then Str("control") else if c == Str("empty") then Str("empty") else Str("trt")
  }

  /**
   * The chemical rules row by row: a "DMSO" or missing sample is a control
   * whose sample becomes "DMSO" and whose doses become 0; an "empty" sample
   * has type "empty"; any other is a treatment; the solvent is copied to the
   * vehicle; every other column is kept.
   */
  lemma ChemicalRows(f: Frame, i: nat)
    requires Shaped(f) && BroadSample in f.data && i < f.nrows
    ensures var r, b := ChemicalSteps(f), f.data[BroadSample][i];
      var control := ChemicalType(b) == Str("control");
      SampleType in r.data && BroadSample in r.data
      && r.data[SampleType][i] == ChemicalRowType(b)
      && r.data[BroadSample][i] == (if control then Str("DMSO") else b)
      && (MmolesPerLiter in f.data && MmolesPerLiter != SampleType ==>
            r.data[MmolesPerLiter][i] == if control then Num(0.0) else f.data[MmolesPerLiter][i])
  {
  }

  /** The chemical block keeps the columns it does not name. */
  lemma ChemicalKeeps(f: Frame, c: string)
    requires Shaped(f) && BroadSample in f.data && c in f.data
    requires c !in {SampleType, BroadSample, MmolesPerLiter, PertVehicle, MgPerMl}
    ensures c in ChemicalSteps(f).data && ChemicalSteps(f).data[c] == f.data[c]
  {
  }

  /** The genetic rule: with a perturbation name, a row is a control exactly when the name is "EMPTY". */
  function GeneticSteps(f: Frame): (r: Frame)
    requires Shaped(f)
    ensures Shaped(r) && r.nrows == f.nrows
    ensures PertName !in f.data ==> r == f
    ensures PertName in f.data ==> SampleType in r.data && r.data == f.data[SampleType := r.data[SampleType]]
    ensures PertName in f.data ==> forall i :: 0 <= i < f.nrows ==>
              ((r.data[SampleType][i] == Str("control") <==> f.data[PertName][i] == Str("EMPTY"))
               && (r.data[SampleType][i] == Str("control") || r.data[SampleType][i] == Str("trt")))
  {
    if PertName in f.data then
      Assign(f, SampleType, seq(f.nrows, i requires 0 <= i < f.nrows =>
        if f.data[PertName][i] == Str("EMPTY") then Str("control") else Str("trt")))
    else f
  }

  /** The perturbation type copies the sample type, or both are set to "". */
  function WithPertType(f: Frame): (r: Frame)
    requires Shaped(f)
    ensures Shaped(r) && r.nrows == f.nrows
    ensures forall c :: c in f.data && c != PertType && c != SampleType ==> c in r.data && r.data[c] == f.data[c]
    ensures SampleType in r.data && PertType in r.data && r.data[PertType] == r.data[SampleType]
    ensures SampleType in f.data ==> r.data[SampleType] == f.data[SampleType]
    ensures SampleType !in f.data ==> r.data[SampleType] == Constant(f.nrows, Str(""))
  {
    if SampleType in f.data then Assign(f, PertType, f.data[SampleType])
    else Assign(Assign(f, PertType, Constant(f.nrows, Str(""))), SampleType, Constant(f.nrows, Str("")))
  }

  // ------------------------------------------------------------ annotate_cmap

  /** The four columns every CMAP annotation adds. */
  function CmapColumns(f: Frame, joinOn: string): (r: Frame)
    requires Shaped(f) && BroadSample in f.data && joinOn in f.data
    ensures Shaped(r) && r.nrows == f.nrows
    ensures r.data == f.data[PertId := PertIds(f.data[BroadSample])][PertMfcId := f.data[BroadSample]]
                            [PertWell := f.data[joinOn]][PertIdVendor := Constant(f.nrows, Str(""))]
  {
    var bs := f.data[BroadSample];
    var a := Assign(f, PertId, PertIds(bs));
    var b := Assign(a, PertMfcId, bs);
    var c := Assign(b, PertWell, f.data[joinOn]);
    Assign(c, PertIdVendor, Constant(f.nrows, Str("")))
  }

  /** The name copies and the cell id, before the mode-specific rules. */
  function Described(f: Frame, cellId: string): (r: Frame)
    requires Shaped(f)
    ensures Shaped(r) && r.nrows == f.nrows
    ensures forall c :: c in f.data && c != PertMfcDesc && c != PertName && c != CellId ==>
              c in r.data && r.data[c] == f.data[c]
    ensures CellId in r.data && (CellId in f.data ==> r.data[CellId] == f.data[CellId])
    ensures CellId !in f.data ==> r.data[CellId] == Constant(f.nrows, Str(cellId))
    ensures PertIname in f.data ==> PertName in r.data && PertMfcDesc in r.data && r.data[PertName] == f.data[PertIname] && r.data[PertMfcDesc] == f.data[PertIname]
  {
    var named := if PertIname in f.data then Assign(Assign(f, PertMfcDesc, f.data[PertIname]), PertName, f.data[PertIname])
                 else f;
    if CellId !in named.data then Assign(named, CellId, Constant(f.nrows, Str(cellId))) else named
  }

  /** `annotate_cmap(annotated, annotate_join_on, cell_id, perturbation_mode)` with one join column. */
  function AnnotateCmap(f: Frame, joinOn: string, cellId: string, mode: string): (r: Result<Frame>)
    requires Shaped(f)
    ensures mode !in PertOpts ==> r == Raise(AssertionError, ModeMessage)
    ensures mode in PertOpts && BroadSample !in f.data ==> r == Raise(AssertionError, CmapMessage)
    ensures r.Ok? <==> mode in PertOpts && BroadSample in f.data && joinOn in f.data
    ensures r.Ok? ==> Shaped(r.value) && r.value.nrows == f.nrows
                      && PertType in r.value.data && SampleType in r.value.data
                      && r.value.data[PertType] == r.value.data[SampleType]
  {
    if mode !in PertOpts then Raise(AssertionError, ModeMessage)
    else if BroadSample !in f.data then Raise(AssertionError, CmapMessage)
    else if joinOn !in f.data then Raise(KeyError, "'" + joinOn + "'")
    else
      var described := Described(CmapColumns(f, joinOn), cellId);
      var moded := if mode == "chemical" then ChemicalSteps(described)
                   else if mode == "genetic" then GeneticSteps(described)
                   else described;
      Ok(WithPertType(moded))
  }

  /** A well-formed frame is annotated into a well-formed frame: distinct names, each stored. */
  lemma AnnotateCmapValid(f: Frame, joinOn: string, cellId: string, mode: string)
    requires Valid(f) && AnnotateCmap(f, joinOn, cellId, mode).Ok?
    ensures Valid(AnnotateCmap(f, joinOn, cellId, mode).value)
  {
    var bs := f.data[BroadSample];
    var a := Assign(f, PertId, PertIds(bs));
    AssignValid(f, PertId, PertIds(bs));
    var b := Assign(a, PertMfcId, bs);
    AssignValid(a, PertMfcId, bs);
    var c := Assign(b, PertWell, f.data[joinOn]);
    AssignValid(b, PertWell, f.data[joinOn]);
    AssignValid(c, PertIdVendor, Constant(f.nrows, Str("")));
    var cmap := CmapColumns(f, joinOn);
    DescribedValid(cmap, cellId);
    var described := Described(cmap, cellId);
    if mode == "chemical" {
      ChemicalValid(described);
      WithPertTypeValid(ChemicalSteps(described));
    } else if mode == "genetic" {
      if PertName in described.data {
        AssignValid(described, SampleType, GeneticSteps(described).data[SampleType]);
      }
      WithPertTypeValid(GeneticSteps(described));
    } else {
      WithPertTypeValid(described);
    }
  }

  lemma DescribedValid(f: Frame, cellId: string)
    requires Valid(f)
    ensures Valid(Described(f, cellId))
  {
    var named := f;
    if PertIname in f.data {
      AssignValid(f, PertMfcDesc, f.data[PertIname]);
      named := Assign(f, PertMfcDesc, f.data[PertIname]);
      AssignValid(named, PertName, f.data[PertIname]);
      named := Assign(named, PertName, f.data[PertIname]);
    }
    if CellId !in named.data {
      AssignValid(named, CellId, Constant(f.nrows, Str(cellId)));
    }
  }

  lemma ChemicalValid(f: Frame)
    requires Valid(f) && BroadSample in f.data
    ensures Valid(ChemicalSteps(f))
  {
    var typed := Assign(f, SampleType, ChemicalTypes(f.data[BroadSample]));
    AssignValid(f, SampleType, ChemicalTypes(f.data[BroadSample]));
    var dmso := SetWhere(typed, BroadSample, Equals(typed.data[SampleType], Str("control")), Str("DMSO"));
    var empty := SetWhere(dmso, SampleType, Equals(dmso.data[BroadSample], Str("empty")), Str("empty"));
    var mmoles := ZeroControls(empty, MmolesPerLiter);
    if Solvent in mmoles.data {
      AssignValid(mmoles, PertVehicle, mmoles.data[Solvent]);
    }
  }

  lemma WithPertTypeValid(f: Frame)
    requires Valid(f)
    ensures Valid(WithPertType(f))
  {
    if SampleType in f.data {
      AssignValid(f, PertType, f.data[SampleType]);
    } else {
      AssignValid(f, PertType, Constant(f.nrows, Str("")));
      AssignValid(Assign(f, PertType, Constant(f.nrows, Str(""))), SampleType, Constant(f.nrows, Str("")));
    }
  }

  /**
   * The perturbation id, well and cell id of every row: the id extracted
   * from the original broad sample, the join column's value, and the given
   * cell id unless the frame had its own.
   */
  lemma AnnotatedIds(f: Frame, joinOn: string, cellId: string, mode: string, i: nat)
    requires Shaped(f) && AnnotateCmap(f, joinOn, cellId, mode).Ok? && i < f.nrows
    requires joinOn !in {PertId, PertMfcId, PertIdVendor, PertMfcDesc, PertName, CellId, SampleType, BroadSample,
                         MmolesPerLiter, PertVehicle, MgPerMl, PertType}
    ensures var r := AnnotateCmap(f, joinOn, cellId, mode).value;
      PertId in r.data && r.data[PertId][i] == PertIdOf(f.data[BroadSample][i])
      && PertWell in r.data && r.data[PertWell][i] == f.data[joinOn][i]
      && CellId in r.data && r.data[CellId][i] == (if CellId in f.data then f.data[CellId][i] else Str(cellId))
  {
    DescribedIds(f, joinOn, cellId, i);
    var described := Described(CmapColumns(f, joinOn), cellId);
    if mode == "chemical" {
      ChemicalKeeps(described, PertId);
      ChemicalKeeps(described, PertWell);
      ChemicalKeeps(described, CellId);
    }
  }

  /** The id, well and cell id columns as the mode-independent steps leave them. */
  lemma DescribedIds(f: Frame, joinOn: string, cellId: string, i: nat)
    requires Shaped(f) && BroadSample in f.data && joinOn in f.data && i < f.nrows
    requires joinOn !in {PertId, PertMfcId, PertIdVendor, PertMfcDesc, PertName, CellId}
    ensures var d := Described(CmapColumns(f, joinOn), cellId);
      PertId in d.data && d.data[PertId][i] == PertIdOf(f.data[BroadSample][i])
      && PertWell in d.data && d.data[PertWell][i] == f.data[joinOn][i]
      && CellId in d.data && d.data[CellId][i] == (if CellId in f.data then f.data[CellId][i] else Str(cellId))
  {
    var cmap := CmapColumns(f, joinOn);
    assert cmap.data[PertId] == PertIds(f.data[BroadSample]);
    assert cmap.data[PertWell] == f.data[joinOn];
    assert CellId in f.data ==> cmap.data[CellId] == f.data[CellId];
  }

  /** In chemical mode the broad sample type follows the chemical rule of the original sample. */
  lemma AnnotatedChemical(f: Frame, joinOn: string, cellId: string, i: nat)
    requires Shaped(f) && AnnotateCmap(f, joinOn, cellId, "chemical").Ok? && i < f.nrows
    requires joinOn != BroadSample
    ensures var r, b := AnnotateCmap(f, joinOn, cellId, "chemical").value, f.data[BroadSample][i];
      r.data[SampleType][i] == ChemicalRowType(b) && r.data[PertType][i] == ChemicalRowType(b)
      && r.data[BroadSample][i] == (if ChemicalType(b) == Str("control") then Str("DMSO") else b)
  {
    var described := Described(CmapColumns(f, joinOn), cellId);
    ChemicalRows(described, i);
  }

  // ------------------------------------------------------------ the in-place steps

  /** The annotated copy that the `.loc` assignments update. */
  class Profiles {
    var frame: Frame

    constructor (f: Frame)
      ensures frame == f
    {
      frame := f;
    }

    /** `.loc[mask, name] = v`: the masked cells of the column are overwritten one by one. */
    method SetWhereInPlace(name: string, mask: seq<bool>, v: Cell)
      requires Shaped(frame) && name in frame.data && |mask| == frame.nrows
      modifies this
      ensures frame == SetWhere(old(frame), name, mask, v)
    {
      var column := frame.data[name];
      for i := 0 to |column|
        invariant |column| == |mask|
        invariant forall k :: 0 <= k < i ==> column[k] == if mask[k] then v else frame.data[name][k]
        invariant forall k :: i <= k < |column| ==> column[k] == frame.data[name][k]
      {
        if mask[i] {
          column := column[i := v];
        }
      }
      assert column == Masked(frame.data[name], mask, v);
      frame := Frame(frame.columns, frame.data[name := column], frame.nrows);
    }

    /** The chemical block: one `assign`, then the `.loc` updates in source order. */
    method Chemical()
      requires Shaped(frame) && BroadSample in frame.data
      modifies this
      ensures frame == ChemicalSteps(old(frame))
    {
      frame := Assign(frame, SampleType, ChemicalTypes(frame.data[BroadSample]));
      SetWhereInPlace(BroadSample, Equals(frame.data[SampleType], Str("control")), Str("DMSO"));
      SetWhereInPlace(SampleType, Equals(frame.data[BroadSample], Str("empty")), Str("empty"));
      if MmolesPerLiter in frame.data {
        SetWhereInPlace(MmolesPerLiter, Equals(frame.data[SampleType], Str("control")), Num(0.0));
      }
      if Solvent in frame.data {
        frame := Assign(frame, PertVehicle, frame.data[Solvent]);
      }
      if MgPerMl in frame.data {
        SetWhereInPlace(MgPerMl, Equals(frame.data[SampleType], Str("control")), Num(0.0));
      }
    }
  }

  /** `annotate_cmap` itself: the checks, the `assign` steps, then the chemical block on the copy. */
  method AnnotateCmapRun(f: Frame, joinOn: string, cellId: string, mode: string) returns (r: Result<Frame>)
    requires Shaped(f)
    ensures r == AnnotateCmap(f, joinOn, cellId, mode)
  {
    if mode !in PertOpts {
      return Raise(AssertionError, ModeMessage);
    }
    if BroadSample !in f.data {
      return Raise(AssertionError, CmapMessage);
    }
    if joinOn !in f.data {
      return Raise(KeyError, "'" + joinOn + "'");
    }
    var annotated := Described(CmapColumns(f, joinOn), cellId);
    if mode == "chemical" {
      var copy := new Profiles(annotated);
      copy.Chemical();
      annotated := copy.frame;
    } else if mode == "genetic" {
      annotated := GeneticSteps(annotated);
    }
    return Ok(WithPertType(annotated));
  }

  // ------------------------------------------------------------ cp_clean

  /** The renames of `cp_clean`. */
  function CleanName(c: string): string
  {
    if c == "Image_Metadata_Plate" then "Metadata_Plate"
    else if c == "Image_Metadata_Well" then "Metadata_Well"
    else c
  }

  /** `cp_clean` on the column names: the two image metadata columns are renamed, every other name kept. */
  function CpClean(columns: seq<string>): (r: seq<string>)
    ensures |r| == |columns|
    ensures forall i :: 0 <= i < |columns| ==> r[i] == CleanName(columns[i])
  {
    seq(|columns|, i requires 0 <= i < |columns| => CleanName(columns[i]))
  }

  /** Cleaning twice is cleaning once, and no cleaned name is one of the two renamed names. */
  lemma CpCleanIdempotent(columns: seq<string>)
    ensures CpClean(CpClean(columns)) == CpClean(columns)
    ensures forall i :: 0 <= i < |columns| ==>
      CpClean(columns)[i] != "Image_Metadata_Plate" && CpClean(columns)[i] != "Image_Metadata_Well"
  {
    assert CpClean(CpClean(columns)) == CpClean(columns);
  }
}
