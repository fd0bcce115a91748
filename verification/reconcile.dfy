/** The reconciliation of the sales facts with the two masters: the zone
    master joined on the stripped client code, the product-code column
    rescued under its other names, the product master joined on the
    stripped product code, and the sentinel values that stand in for every
    master field a fact row found no match for. */
module Reconcile {

  import opened Wrappers
  import opened Text
  import opened Table
  import opened Join
  import Masters

  /** An error the reconciliation does not catch, which ends the run: a
      column it reads is absent, or several columns carry its label. */
  datatype Fault = BadColumn(name: string)

  /** The suffix the zone join gives zone columns that clash with a fact column. */
  const ZoneSuffix: string := "_ZONA_DROP"

  /** The zone fields a fact row without a zone match gets a sentinel for. */
  const ZoneFields: seq<string> := ["ACCOUNT MANAGER", "DEPARTAMENTO", "PROVINCIA", "DISTRITO"]

  const Unassigned: string := "SIN ASIGNAR"

  /** A label the zone join produced for a clashing zone column. */
  predicate IsZoneCopy(l: string) {
    Contains(l, ZoneSuffix)
  }

  /** `df['COD.CLIENTE'].astype(str).str.strip()` written back in place. */
  function StripClientCodes(f: Frame): (g: Frame)
    requires WellFormed(f) && Masters.ZoneKey in f.columns
    ensures WellFormed(g) && g.columns == f.columns && |g.rows| == |f.rows|
    ensures forall i :: 0 <= i < |f.rows| ==>
              CellAt(g.rows[i], IndexOf(g.columns, Masters.ZoneKey)) == Stripped(Column(f, Masters.ZoneKey)[i])
    ensures forall i, k :: 0 <= i < |f.rows| && 0 <= k < |f.columns| && f.columns[k] != Masters.ZoneKey ==>
              g.rows[i][k] == f.rows[i][k]
  {
    StripInto(f, Masters.ZoneKey, Masters.ZoneKey)
  }

  /** The zone join proper: a left join on the client code, the fact's
      labels kept as they are and clashing zone labels suffixed, and then
      every suffixed column dropped. */
  function ZoneMerge(f: Frame, zones: Frame): (r: Result<Frame, Fault>)
    requires WellFormed(f) && WellFormed(zones)
    ensures r.Success? <==> Count(f.columns, Masters.ZoneKey) == 1 && Count(zones.columns, Masters.ZoneKey) == 1
    ensures r.Success? ==> WellFormed(r.value) && |r.value.rows| >= |f.rows|
    ensures r.Success? ==> forall k :: 0 <= k < |r.value.columns| ==> !IsZoneCopy(r.value.columns[k])
  {
    match LeftJoin(f, zones, Masters.ZoneKey, "", ZoneSuffix)
    case Failure(e) => Failure(BadColumn(e.key))
    case Success(j) => Success(DropWhere(j, IsZoneCopy))
  }

  /** The zone step. Without a client-code column the facts pass through.
      With several, stripping them fails. Otherwise the client codes are
      stripped, and when a zone master was loaded it is joined in and the
      zone fields' missing cells become "SIN ASIGNAR". */
  function ZoneStep(f: Frame, zones: Option<Frame>): (r: Result<Frame, Fault>)
    requires WellFormed(f) && (zones.Some? ==> WellFormed(zones.value))
    ensures Masters.ZoneKey !in f.columns ==> r == Success(f)
    ensures r.Failure? <==>
              || Count(f.columns, Masters.ZoneKey) > 1
              || (Count(f.columns, Masters.ZoneKey) == 1 && zones.Some? && Count(zones.value.columns, Masters.ZoneKey) != 1)
    ensures r.Success? ==> WellFormed(r.value) && |r.value.rows| >= |f.rows|
    ensures r.Success? && zones.None? ==> |r.value.rows| == |f.rows|
    ensures r.Success? && zones.Some? && Masters.ZoneKey in f.columns ==>
              forall i, k :: 0 <= i < |r.value.rows| && 0 <= k < |r.value.columns| && r.value.columns[k] in ZoneFields ==>
                r.value.rows[i][k] != Null
  {
    if Masters.ZoneKey !in f.columns then Success(f)
    else if Count(f.columns, Masters.ZoneKey) > 1 then Failure(BadColumn(Masters.ZoneKey))
    else
      var f1 := StripClientCodes(f);
      match zones
      case None => Success(f1)
      case Some(z) => JoinZones(f1, z)
  }

  /** The zone join followed by the "SIN ASIGNAR" fill: afterwards no zone
      field has a missing cell. */
  function JoinZones(f: Frame, zones: Frame): (r: Result<Frame, Fault>)
    requires WellFormed(f) && WellFormed(zones) && Count(f.columns, Masters.ZoneKey) == 1
    ensures r.Failure? <==> Count(zones.columns, Masters.ZoneKey) != 1
    ensures r.Success? ==> WellFormed(r.value) && |r.value.rows| >= |f.rows|
    ensures r.Success? ==>
              forall i, k :: 0 <= i < |r.value.rows| && 0 <= k < |r.value.columns| && r.value.columns[k] in ZoneFields ==>
                r.value.rows[i][k] != Null
  {
    match ZoneMerge(f, zones)
    case Failure(e) => Failure(e)
    case Success(g) =>
      Success(FillAll(g, ZoneFields, Unassigned))
  }

  /** The conditions under which the zone join pairs each fact row with at
      most one zone row: one client-code column on each side, and distinct
      stripped client codes in the zone master. */
  predicate OneZonePerCode(f: Frame, zones: Frame)
    requires WellFormed(f) && WellFormed(zones)
  {
    && Count(f.columns, Masters.ZoneKey) == 1
    && Count(zones.columns, Masters.ZoneKey) == 1
    && UniqueKeys(zones.rows, IndexOf(zones.columns, Masters.ZoneKey))
  }

  /** With distinct client codes in the zone master, the zone step keeps
      exactly one row per fact row. */
  lemma ZoneStepOneRowPerFact(f: Frame, zones: Frame)
    requires WellFormed(f) && WellFormed(zones) && OneZonePerCode(f, zones)
    ensures ZoneStep(f, Some(zones)).Success?
    ensures |ZoneStep(f, Some(zones)).value.rows| == |f.rows|
  {
    ZoneStages(f, zones);
    UniqueRightKeys(StripClientCodes(f), zones, Masters.ZoneKey, "", ZoneSuffix);
  }

  /** The zone step's output on a fact table and zone master with one
      client-code column each. */
  function ZoneOutput(f: Frame, zones: Frame): Frame
    requires WellFormed(f) && WellFormed(zones)
    requires Count(f.columns, Masters.ZoneKey) == 1 && Count(zones.columns, Masters.ZoneKey) == 1
  {
    Merged(StripClientCodes(f), zones)
  }

  /** The join, drop and fill of the zone step on any fact table g whose
      client codes are already stripped. */
  function Merged(g: Frame, zones: Frame): Frame
    requires WellFormed(g) && WellFormed(zones)
    requires Count(g.columns, Masters.ZoneKey) == 1 && Count(zones.columns, Masters.ZoneKey) == 1
  {
    FillAll(DropWhere(LeftJoin(g, zones, Masters.ZoneKey, "", ZoneSuffix).value, IsZoneCopy), ZoneFields, Unassigned)
  }

  /** Merged starts with g's columns, holding g's cells, a zone field's
      missing cells reading "SIN ASIGNAR"; one row per row of g. */
  lemma MergedKeepsFact(g: Frame, zones: Frame)
    requires WellFormed(g) && WellFormed(zones) && OneZonePerCode(g, zones)
    requires forall j :: 0 <= j < |g.columns| ==> !IsZoneCopy(g.columns[j])
    ensures var out := Merged(g, zones);
            && |out.rows| == |g.rows| && |out.columns| >= |g.columns|
            && (forall j :: 0 <= j < |g.columns| ==> out.columns[j] == g.columns[j])
            && (forall i, j :: 0 <= i < |g.rows| && 0 <= j < |g.columns| ==>
                  CellAt(out.rows[i], j) == (if g.columns[j] in ZoneFields then Filled(CellAt(g.rows[i], j), Unassigned) else CellAt(g.rows[i], j)))
  {
    LeftLabelsKept(g, zones, Masters.ZoneKey, ZoneSuffix);
    LeftCellsKept(g, zones, Masters.ZoneKey, "", ZoneSuffix);
    DropFillKeepsPrefix(LeftJoin(g, zones, Masters.ZoneKey, "", ZoneSuffix).value, g, IsZoneCopy, ZoneFields, Unassigned);
  }

  /** In Merged, a row of g whose client code the zone master does not have
      reads "SIN ASIGNAR" under the zone fields behind g's columns, and is
      missing every other cell there. */
  lemma MergedUnmatched(g: Frame, zones: Frame, i: nat)
    requires WellFormed(g) && WellFormed(zones) && OneZonePerCode(g, zones)
    requires forall j :: 0 <= j < |g.columns| ==> !IsZoneCopy(g.columns[j])
    requires i < |g.rows|
    requires forall j :: 0 <= j < |zones.rows| ==>
               CellAt(zones.rows[j], IndexOf(zones.columns, Masters.ZoneKey)) != CellAt(g.rows[i], IndexOf(g.columns, Masters.ZoneKey))
    ensures var out := Merged(g, zones);
            i < |out.rows| &&
            forall k :: |g.columns| <= k < |out.columns| ==>
              CellAt(out.rows[i], k) == (if out.columns[k] in ZoneFields then Str(Unassigned) else Null)
  {
    LeftLabelsKept(g, zones, Masters.ZoneKey, ZoneSuffix);
    UnmatchedCellsMissing(g, zones, Masters.ZoneKey, "", ZoneSuffix, i);
    DropFillMissingTail(LeftJoin(g, zones, Masters.ZoneKey, "", ZoneSuffix).value, |g.columns|, IsZoneCopy, ZoneFields, Unassigned, i);
  }

  /** The zone step on a fact table and a zone master with one client-code
      column each, stage by stage. */
  lemma ZoneStages(f: Frame, zones: Frame)
    requires WellFormed(f) && WellFormed(zones)
    requires Count(f.columns, Masters.ZoneKey) == 1 && Count(zones.columns, Masters.ZoneKey) == 1
    ensures LeftJoin(StripClientCodes(f), zones, Masters.ZoneKey, "", ZoneSuffix).Success?
    ensures ZoneStep(f, Some(zones)) == Success(ZoneOutput(f, zones))
  {
  }

  /** The fact's columns win over the zone master's: with distinct client
      codes in the master, the zone step's output starts with the fact's
      columns under their own labels, holding the fact's cells (client code
      stripped), except that a zone field's missing cells read "SIN ASIGNAR". */
  lemma ZoneStepFactWins(f: Frame, zones: Frame)
    requires WellFormed(f) && WellFormed(zones) && OneZonePerCode(f, zones)
    requires forall j :: 0 <= j < |f.columns| ==> !IsZoneCopy(f.columns[j])
    ensures ZoneStep(f, Some(zones)) == Success(ZoneOutput(f, zones))
    ensures var out := ZoneOutput(f, zones);
            var f1 := StripClientCodes(f);
            && |out.columns| >= |f.columns|
            && (forall j :: 0 <= j < |f.columns| ==> out.columns[j] == f.columns[j])
            && (forall i, j :: 0 <= i < |f.rows| && 0 <= j < |f.columns| ==>
                  CellAt(out.rows[i], j) == (if f.columns[j] in ZoneFields then Filled(CellAt(f1.rows[i], j), Unassigned) else CellAt(f1.rows[i], j)))
  {
    ZoneStages(f, zones);
    var f1 := StripClientCodes(f);
    MergedKeepsFact(f1, zones);
    var out := Merged(f1, zones);
    forall i, j | 0 <= i < |f.rows| && 0 <= j < |f.columns|
      ensures CellAt(out.rows[i], j) == (if f.columns[j] in ZoneFields then Filled(CellAt(f1.rows[i], j), Unassigned) else CellAt(f1.rows[i], j))
    {
      assert f1.columns[j] == f.columns[j];
    }
  }

  /** A fact row whose stripped client code the zone master (with distinct
      codes) does not have gets "SIN ASIGNAR" in every zone field the master
      brought in, and a missing cell in any other column it brought. */
  lemma ZoneStepUnmatched(f: Frame, zones: Frame, i: nat)
    requires WellFormed(f) && WellFormed(zones) && OneZonePerCode(f, zones)
    requires forall j :: 0 <= j < |f.columns| ==> !IsZoneCopy(f.columns[j])
    requires i < |f.rows|
    requires forall j :: 0 <= j < |zones.rows| ==>
               CellAt(zones.rows[j], IndexOf(zones.columns, Masters.ZoneKey)) != Stripped(Column(f, Masters.ZoneKey)[i])
    ensures ZoneStep(f, Some(zones)).Success?
    ensures var out := ZoneStep(f, Some(zones)).value;
            i < |out.rows| &&
            forall k :: |f.columns| <= k < |out.columns| ==>
              CellAt(out.rows[i], k) == (if out.columns[k] in ZoneFields then Str(Unassigned) else Null)
  {
    ZoneStages(f, zones);
    MergedUnmatched(StripClientCodes(f), zones, i);
  }

  /** `CAI` under the names a merge or an unapplied synonym could have left
      it: when "CAI" is absent, "CAI_x" is renamed to it, or failing that
      "CODIGO". */
  function Rescue(f: Frame): (g: Frame)
    requires WellFormed(f)
    ensures WellFormed(g) && g.rows == f.rows && |g.columns| == |f.columns|
    ensures "CAI" in f.columns ==> g == f
    ensures "CAI" in g.columns <==> "CAI" in f.columns || "CAI_x" in f.columns || "CODIGO" in f.columns
    ensures forall k :: 0 <= k < |f.columns| && g.columns[k] != f.columns[k] ==>
              g.columns[k] == "CAI" && "CAI" !in f.columns &&
              (f.columns[k] == "CAI_x" || ("CAI_x" !in f.columns && f.columns[k] == "CODIGO"))
  {
    if "CAI" in f.columns then f
    else if "CAI_x" in f.columns then
      var g := Relabel(f, Replace(f.columns, "CAI_x", "CAI"));
      assert g.columns[IndexOf(f.columns, "CAI_x")] == "CAI";
      g
    else if "CODIGO" in f.columns then
      var g := Relabel(f, Replace(f.columns, "CODIGO", "CAI"));
      assert g.columns[IndexOf(f.columns, "CODIGO")] == "CAI";
      g
    else f
  }

  /** The stripped product code both joins use as key. */
  const CleanKey: string := "CAI_Clean"

  /** The product master columns taken, when present, in this order. */
  const ProductChoices: seq<string> :=
    ["CAI", "SEGMENTO LB", "MARCA", "MACRO_ MACHINE", "DENOMINATION", "CLASIFICACIÓN DR", "CLASIFICACION DR"]

  /** The product fields a fact row without a product match gets a sentinel for. */
  const ProductFields: seq<string> := ["Segmento LB", "MARCA", "MACRO_ MACHINE", "DENOMINATION", "CLASIFICACIÓN DR"]

  const Others: string := "OTROS"

  /** The product code of a run without product master or without "CAI". */
  const NoCai: string := "SIN CAI"

  /** The fixed renames of the joined product columns. */
  const ViewRenames: map<string, string> := map["SEGMENTO LB" := "Segmento LB", "MACRO MACHINE" := "MACRO_ MACHINE"]

  /** The labels of the projected product master: the unaccented
      classification label takes the accent when the accented one is
      absent, then the fixed renames. */
  function ViewLabels(c: seq<string>): (r: seq<string>)
    ensures |r| == |c|
    ensures forall k :: 0 <= k < |c| ==>
              var c1 := if "CLASIFICACION DR" in c && "CLASIFICACIÓN DR" !in c && c[k] == "CLASIFICACION DR"
                        then "CLASIFICACIÓN DR" else c[k];
              r[k] == (if c1 in ViewRenames then ViewRenames[c1] else c1)
  {
    var c1 := if "CLASIFICACION DR" in c && "CLASIFICACIÓN DR" !in c then Replace(c, "CLASIFICACION DR", "CLASIFICACIÓN DR") else c;
    Rename(c1, ViewRenames)
  }

  /** The product master cut down to the columns the join brings in. */
  function MasterView(master: Frame): (m: Frame)
    requires WellFormed(master)
    ensures WellFormed(m) && m.rows == Select(master, ProductChoices).rows
    ensures m.columns == ViewLabels(Copies(master.columns, ProductChoices))
  {
    var sel := Select(master, ProductChoices);
    SelectColumns(master, ProductChoices);
    Relabel(sel, ViewLabels(sel.columns))
  }

  /** A label naming the product code. */
  predicate NamesCai(l: string) {
    Contains(l, "CAI")
  }

  /** The product master's key: its first label naming "CAI", else "CAI". */
  function ProductKey(labels: seq<string>): (key: string)
    ensures (forall j :: 0 <= j < |labels| ==> !NamesCai(labels[j])) ==> key == "CAI"
    ensures (exists j :: 0 <= j < |labels| && NamesCai(labels[j])) ==>
              exists j :: 0 <= j < |labels| && labels[j] == key && NamesCai(key) &&
                forall i :: 0 <= i < j ==> !NamesCai(labels[i])
  {
    match FirstWhere(labels, NamesCai)
    case None => "CAI"
    case Some(j) => labels[j]
  }

  /** The product table the facts are joined with: the master view keyed
      by its product key. */
  function ProductTable(master: Frame): (r: Result<Frame, Fault>)
    requires WellFormed(master)
    ensures var key := ProductKey(MasterView(master).columns);
            Count(MasterView(master).columns, key) != 1 ==> r == Failure(BadColumn(key))
    ensures r.Success? ==>
              && WellFormed(r.value) && CleanKey in r.value.columns
              && |r.value.rows| <= |master.rows|
              && UniqueKeys(r.value.rows, IndexOf(r.value.columns, CleanKey))
  {
    var mv := MasterView(master);
    KeyedBy(mv, ProductKey(mv.columns))
  }

  /** A table keyed for the product join: column key stripped into
      "CAI_Clean", every column labelled key dropped, and one row per
      stripped code (the first). A key that is absent or carried by several
      columns fails, and so does a key that was "CAI_Clean" itself, which
      the drop removes. */
  function KeyedBy(m: Frame, key: string): (r: Result<Frame, Fault>)
    requires WellFormed(m)
    ensures Count(m.columns, key) != 1 || key == CleanKey ==> r == Failure(BadColumn(if Count(m.columns, key) != 1 then key else CleanKey))
    ensures r.Success? ==>
              && WellFormed(r.value) && CleanKey in r.value.columns
              && |r.value.rows| <= |m.rows|
              && UniqueKeys(r.value.rows, IndexOf(r.value.columns, CleanKey))
              && forall k :: 0 <= k < |r.value.columns| ==> r.value.columns[k] != key
  {
    if Count(m.columns, key) != 1 then Failure(BadColumn(key))
    else
      var d := DropWhere(StripInto(m, key, CleanKey), l => l == key);
      if CleanKey !in d.columns then Failure(BadColumn(CleanKey))
      else
        DedupUnique(d, CleanKey);
        Success(DedupOn(d, CleanKey))
  }

  /** The product step on facts carrying "CAI": "CAI_Clean" is the stripped
      "CAI", the product table is left-joined on it (clashing labels
      suffixed "_x" and "_y"), and the product fields' missing cells become
      "OTROS". A "CAI" carried by several columns fails, and so does a
      merge key that is not carried once on each side. */
  function ProductStep(f: Frame, master: Frame): (r: Result<Frame, Fault>)
    requires WellFormed(f) && WellFormed(master) && "CAI" in f.columns
    ensures Count(f.columns, "CAI") > 1 ==> r == Failure(BadColumn("CAI"))
    ensures r.Success? ==> WellFormed(r.value) && CleanKey in r.value.columns && |r.value.rows| >= |f.rows|
    ensures r.Success? ==>
              forall i, k :: 0 <= i < |r.value.rows| && 0 <= k < |r.value.columns| && r.value.columns[k] in ProductFields ==>
                r.value.rows[i][k] != Null
  {
    if Count(f.columns, "CAI") > 1 then Failure(BadColumn("CAI"))
    else
      var f1 := StripInto(f, "CAI", CleanKey);
      match ProductTable(master)
      case Failure(e) => Failure(e)
      case Success(m) =>
        match LeftJoin(f1, m, CleanKey, "_x", "_y")
        case Failure(e) => Failure(BadColumn(e.key))
        case Success(j) =>
          JoinKeepsKey(f1, m, CleanKey, "_x", "_y");
          Success(FillAll(j, ProductFields, Others))
  }

  /** Without product master, or without "CAI": "CAI_Clean" is the stripped
      "CAI", or "SIN CAI" on every row. */
  function NoMasterStep(f: Frame): (r: Result<Frame, Fault>)
    requires WellFormed(f)
    ensures r.Failure? <==> Count(f.columns, "CAI") > 1
    ensures r.Success? ==>
              && WellFormed(r.value) && |r.value.rows| == |f.rows| && CleanKey in r.value.columns
              && forall i :: 0 <= i < |f.rows| ==>
                   CellAt(r.value.rows[i], IndexOf(r.value.columns, CleanKey)) ==
                     (if "CAI" in f.columns then Stripped(Column(f, "CAI")[i]) else Str(NoCai))
  {
    if "CAI" !in f.columns then Success(SetColumn(f, CleanKey, seq(|f.rows|, _ => Str(NoCai))))
    else if Count(f.columns, "CAI") > 1 then Failure(BadColumn("CAI"))
    else Success(StripInto(f, "CAI", CleanKey))
  }

  /** The whole reconciliation: the zone step, the rescue of "CAI", and the
      product step when a product master was loaded and "CAI" is there. */
  function Reconcile(f: Frame, zones: Option<Frame>, master: Option<Frame>): (r: Result<Frame, Fault>)
    requires WellFormed(f)
    requires zones.Some? ==> WellFormed(zones.value)
    requires master.Some? ==> WellFormed(master.value)
    ensures r.Success? ==> WellFormed(r.value) && |r.value.rows| >= |f.rows| && CleanKey in r.value.columns
  {
    match ZoneStep(f, zones)
    case Failure(e) => Failure(e)
    case Success(z) => ProductStage(z, master)
  }

  /** What follows the zone step: the rescue of "CAI", then the product
      join when a product master was loaded and "CAI" is there, and the
      stripped code or "SIN CAI" otherwise. */
  function ProductStage(z: Frame, master: Option<Frame>): (r: Result<Frame, Fault>)
    requires WellFormed(z)
    requires master.Some? ==> WellFormed(master.value)
    ensures r.Success? ==> WellFormed(r.value) && |r.value.rows| >= |z.rows| && CleanKey in r.value.columns
  {
    var g := Rescue(z);
    if master.Some? && "CAI" in g.columns then ProductStep(g, master.value) else NoMasterStep(g)
  }

  /** The facts with their stripped product code in "CAI_Clean". */
  function FactCodes(f: Frame): (g: Frame)
    requires WellFormed(f) && "CAI" in f.columns
    ensures WellFormed(g) && |g.rows| == |f.rows| && CleanKey in g.columns && |g.columns| >= |f.columns|
    ensures forall i :: 0 <= i < |f.rows| ==> CellAt(g.rows[i], IndexOf(g.columns, CleanKey)) == Stripped(Column(f, "CAI")[i])
  {
    StripInto(f, "CAI", CleanKey)
  }

  /** The conditions under which the product join of facts f with a
      product table m succeeds and pairs each fact row with at most one
      product row. */
  predicate OneProductPerCode(f: Frame, m: Frame)
    requires WellFormed(f) && "CAI" in f.columns && WellFormed(m)
  {
    && Joinable(FactCodes(f), m, CleanKey)
    && CleanKey in m.columns
    && UniqueKeys(m.rows, IndexOf(m.columns, CleanKey))
  }

  /** The product join and the "OTROS" fill, on facts f and a product table m. */
  function ProductOutput(f: Frame, m: Frame): Frame
    requires WellFormed(f) && "CAI" in f.columns && WellFormed(m)
    requires Joinable(FactCodes(f), m, CleanKey)
  {
    FillAll(LeftJoin(FactCodes(f), m, CleanKey, "_x", "_y").value, ProductFields, Others)
  }

  /** The product step, when it succeeds, is the product join with the
      product table, and that table has one row per stripped code. */
  lemma ProductStages(f: Frame, master: Frame)
    requires WellFormed(f) && WellFormed(master) && "CAI" in f.columns
    requires ProductStep(f, master).Success?
    ensures ProductTable(master).Success? && OneProductPerCode(f, ProductTable(master).value)
    ensures ProductStep(f, master) == Success(ProductOutput(f, ProductTable(master).value))
  {
    var f1 := FactCodes(f);
    assert f1 == StripInto(f, "CAI", CleanKey);
    var m := ProductTable(master).value;
    assert LeftJoin(f1, m, CleanKey, "_x", "_y").Success?;
  }

  /** With one product row per stripped code, the product join keeps exactly
      one row per fact row. */
  lemma ProductOutputOneRowPerFact(f: Frame, m: Frame)
    requires WellFormed(f) && "CAI" in f.columns && WellFormed(m) && OneProductPerCode(f, m)
    ensures |ProductOutput(f, m).rows| == |f.rows|
  {
    UniqueRightKeys(FactCodes(f), m, CleanKey, "_x", "_y");
  }

  /** The product step keeps exactly one row per fact row. */
  lemma ProductStepOneRowPerFact(f: Frame, master: Frame)
    requires WellFormed(f) && WellFormed(master) && "CAI" in f.columns
    requires ProductStep(f, master).Success?
    ensures |ProductStep(f, master).value.rows| == |f.rows|
  {
    ProductStages(f, master);
    ProductOutputOneRowPerFact(f, ProductTable(master).value);
  }

  /** The product join keeps every fact cell (and the stripped code) in
      place, except that a product field's missing cells read "OTROS". */
  lemma ProductOutputKeepsFacts(f: Frame, m: Frame)
    requires WellFormed(f) && "CAI" in f.columns && WellFormed(m) && OneProductPerCode(f, m)
    ensures KeepsFilled(ProductOutput(f, m), FactCodes(f), ProductFields, Others)
  {
    var f1 := FactCodes(f);
    JoinFillKeepsLeft(f1, m, CleanKey, "_x", "_y", ProductFields, Others);
  }

  /** A fact row whose stripped product code the product table does not
      have reads "OTROS" in every product field the table brought in, and
      is missing every other cell the table brought. */
  lemma ProductOutputUnmatched(f: Frame, m: Frame, i: nat)
    requires WellFormed(f) && "CAI" in f.columns && WellFormed(m) && OneProductPerCode(f, m)
    requires i < |f.rows|
    requires forall j :: 0 <= j < |m.rows| ==> CellAt(m.rows[j], IndexOf(m.columns, CleanKey)) != Stripped(Column(f, "CAI")[i])
    ensures var out := ProductOutput(f, m);
            i < |out.rows| &&
            forall k :: |FactCodes(f).columns| <= k < |out.columns| ==>
              CellAt(out.rows[i], k) == (if out.columns[k] in ProductFields then Str(Others) else Null)
  {
    var f1 := FactCodes(f);
    var jn := LeftJoin(f1, m, CleanKey, "_x", "_y").value;
    UnmatchedCellsMissing(f1, m, CleanKey, "_x", "_y", i);
    FillMissingTail(jn, |f1.columns|, ProductFields, Others, i);
  }

  /** The zone step never loses "CAI": the fact's labels come first in the
      merge and "CAI" is not a zone copy, so the rescue has nothing to do
      after it. */
  lemma ZoneStepKeepsCai(f: Frame, zones: Option<Frame>)
    requires WellFormed(f) && (zones.Some? ==> WellFormed(zones.value))
    requires "CAI" in f.columns && ZoneStep(f, zones).Success?
    ensures "CAI" in ZoneStep(f, zones).value.columns
    ensures Rescue(ZoneStep(f, zones).value) == ZoneStep(f, zones).value
  {
    if Masters.ZoneKey in f.columns && zones.Some? {
      var z := zones.value;
      ZoneStages(f, z);
      var f1 := StripClientCodes(f);
      var jn := LeftJoin(f1, z, Masters.ZoneKey, "", ZoneSuffix).value;
      LeftLabelsKept(f1, z, Masters.ZoneKey, ZoneSuffix);
      assert jn.columns[IndexOf(f.columns, "CAI")] == "CAI";
      assert !IsZoneCopy("CAI") by { assert |"CAI"| < |ZoneSuffix|; }
      DropKeeps(jn, IsZoneCopy, "CAI");
    }
  }

  /** With distinct stripped client codes in the zone master (any product
      master is deduplicated on its stripped code), a reconciliation that
      succeeds has exactly one row per fact row. */
  lemma ReconcileOneRowPerFact(f: Frame, zones: Option<Frame>, master: Option<Frame>)
    requires WellFormed(f)
    requires zones.Some? ==> WellFormed(zones.value)
    requires master.Some? ==> WellFormed(master.value)
    requires zones.Some? && Masters.ZoneKey in zones.value.columns ==>
               UniqueKeys(zones.value.rows, IndexOf(zones.value.columns, Masters.ZoneKey))
    requires Reconcile(f, zones, master).Success?
    ensures |Reconcile(f, zones, master).value.rows| == |f.rows|
  {
    var z := ZoneStep(f, zones).value;
    ZoneStepKeepsRowCount(f, zones);
    ProductStageOneRowPerFact(z, master);
  }

  /** With distinct stripped client codes in the zone master, a zone step
      that succeeds has exactly one row per fact row. */
  lemma ZoneStepKeepsRowCount(f: Frame, zones: Option<Frame>)
    requires WellFormed(f)
    requires zones.Some? ==> WellFormed(zones.value)
    requires zones.Some? && Masters.ZoneKey in zones.value.columns ==>
               UniqueKeys(zones.value.rows, IndexOf(zones.value.columns, Masters.ZoneKey))
    requires ZoneStep(f, zones).Success?
    ensures |ZoneStep(f, zones).value.rows| == |f.rows|
  {
    if zones.Some? && Masters.ZoneKey in f.columns {
      ZoneStepOneRowPerFact(f, zones.value);
    }
  }

  /** The product stage keeps exactly one row per row it is given. */
  lemma ProductStageOneRowPerFact(z: Frame, master: Option<Frame>)
    requires WellFormed(z)
    requires master.Some? ==> WellFormed(master.value)
    requires ProductStage(z, master).Success?
    ensures |ProductStage(z, master).value.rows| == |z.rows|
  {
    var g := Rescue(z);
    if master.Some? && "CAI" in g.columns {
      ProductStepOneRowPerFact(g, master.value);
    }
  }
}
