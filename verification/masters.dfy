/** The two reference tables: the zone master (`cargar_maestro_zonas_seguro`),
    which gives each client code its account manager and location, and the
    product master (`cargar_maestro_filtros`), which gives each product code
    its segment, brand, machine family, denomination and classification. */
module Masters {

  import opened Wrappers
  import opened Text
  import opened Table
  import opened Schema

  /** The client-code label the zone master is keyed on. */
  const ZoneKey: string := "COD.CLIENTE"

  /** The zone columns kept, in this order. */
  const ZoneColumns: seq<string> := ["COD.CLIENTE", "ACCOUNT MANAGER", "DEPARTAMENTO", "PROVINCIA", "DISTRITO"]

  /** `str(c).strip().upper()` */
  function ZoneLabel(c: string): string {
    Upper(Strip(c))
  }

  /** The zone master's labels: cleaned, then the two spellings of the
      account-manager column ("AM", and the misspelt "ACOOUNT MANAGER")
      renamed to "ACCOUNT MANAGER". */
  function ZoneLabels(labels: seq<string>): (r: seq<string>)
    ensures |r| == |labels|
    ensures forall k :: 0 <= k < |labels| ==>
              r[k] == (if ZoneLabel(labels[k]) == "AM" || ZoneLabel(labels[k]) == "ACOOUNT MANAGER"
                       then "ACCOUNT MANAGER" else ZoneLabel(labels[k]))
  {
    var cleaned := seq(|labels|, k requires 0 <= k < |labels| => ZoneLabel(labels[k]));
    Replace(Replace(cleaned, "AM", "ACCOUNT MANAGER"), "ACOOUNT MANAGER", "ACCOUNT MANAGER")
  }

  /** The zone sheet relabelled and projected onto the allowed columns. */
  function ZoneView(f: Frame): (g: Frame)
    requires WellFormed(f)
    ensures WellFormed(g) && |g.rows| == |f.rows|
    ensures Count(g.columns, ZoneKey) == Count(ZoneLabels(f.columns), ZoneKey)
  {
    ZoneViewKeyCount(f);
    Select(Relabel(f, ZoneLabels(f.columns)), ZoneColumns)
  }

  /** The projected zone table carries the client code exactly as often as
      the relabelled sheet does: the allow-list names it once. */
  lemma ZoneViewKeyCount(f: Frame)
    requires WellFormed(f)
    ensures Count(Select(Relabel(f, ZoneLabels(f.columns)), ZoneColumns).columns, ZoneKey) == Count(ZoneLabels(f.columns), ZoneKey)
  {
    var z := ZoneColumns;
    assert forall k :: 1 <= k < |z| ==> |z[k]| != |ZoneKey|;
    CountOnce(z, ZoneKey, 0);
    SelectColumns(Relabel(f, ZoneLabels(f.columns)), ZoneColumns);
    CountCopies(ZoneLabels(f.columns), ZoneColumns, ZoneKey);
  }

  /** The zone loader. A missing sheet gives no master, and so does a sheet
      without exactly one client-code column (with none the loader declines;
      with several, stripping the key raises and the handler gives up).
      Otherwise: the allowed columns present, in allow-list order; one row
      per distinct raw client code, the first one met; and that code then
      stripped. */
  function LoadZones(sheet: Option<Frame>): (r: Option<Frame>)
    requires sheet.Some? ==> WellFormed(sheet.value)
    ensures sheet.None? ==> r.None?
    ensures sheet.Some? ==> r == LoadZoneSheet(sheet.value)
  {
    match sheet
    case None => None
    case Some(f) => LoadZoneSheet(f)
  }

  /** The zone loader on a sheet that was read. */
  function LoadZoneSheet(f: Frame): (r: Option<Frame>)
    requires WellFormed(f)
    ensures r.Some? <==> Count(ZoneLabels(f.columns), ZoneKey) == 1
    ensures r.Some? ==> r.value == DedupThenStrip(ZoneView(f), ZoneKey)
  {
    var g := ZoneView(f);
    if Count(g.columns, ZoneKey) != 1 then None
    else Some(DedupThenStrip(g, ZoneKey))
  }

  /** `drop_duplicates(l)` followed by stripping column l: the first row of
      every raw value, in order, with that value stripped. */
  function DedupThenStrip(g: Frame, l: string): (z: Frame)
    requires WellFormed(g) && Count(g.columns, l) == 1
    ensures WellFormed(z) && z.columns == g.columns
    ensures var idx := KeepFirst(Column(g, l));
            |z.rows| == |idx| &&
            forall k :: 0 <= k < |idx| ==> z.rows[k] == StrippedRow(g, l, idx[k])
  {
    DedupThenStripRows(g, l);
    StripInto(DedupOn(g, l), l, l)
  }

  /** Row i of g with its cells under label l replaced by the stripped value
      of its l cell. */
  function StrippedRow(g: Frame, l: string, i: nat): (r: Row)
    requires WellFormed(g) && l in g.columns && i < |g.rows|
    ensures |r| == |g.columns|
  {
    assert g.rows[i] in g.rows;
    SetCells(g.columns, g.rows[i], l, Stripped(Column(g, l)[i]))
  }

  /** The rows of the above, one by one. */
  lemma DedupThenStripRows(g: Frame, l: string)
    requires WellFormed(g) && Count(g.columns, l) == 1
    ensures var z := StripInto(DedupOn(g, l), l, l);
            var idx := KeepFirst(Column(g, l));
            z.columns == g.columns && |z.rows| == |idx| &&
            forall k :: 0 <= k < |idx| ==> z.rows[k] == StrippedRow(g, l, idx[k])
  {
    var d := DedupOn(g, l);
    var z := StripInto(d, l, l);
    var idx := KeepFirst(Column(g, l));
    forall k | 0 <= k < |idx|
      ensures z.rows[k] == StrippedRow(g, l, idx[k])
    {
      assert Column(d, l)[k] == Column(g, l)[idx[k]];
    }
  }

  /** The zone master holds exactly the allowed columns the sheet has, in
      allow-list order (a column the sheet repeats, repeated). */
  lemma ZoneColumnsInOrder(f: Frame)
    requires WellFormed(f)
    ensures LoadZoneSheet(f).Some? ==> LoadZoneSheet(f).value.columns == Copies(ZoneLabels(f.columns), ZoneColumns)
  {
    SelectColumns(Relabel(f, ZoneLabels(f.columns)), ZoneColumns);
  }

  /** The kept zone rows come from distinct raw client codes, each the first
      row carrying its code, and every raw code of the sheet is kept. */
  lemma ZoneRowsFirstOccurrences(f: Frame)
    requires WellFormed(f) && Count(ZoneLabels(f.columns), ZoneKey) == 1
    ensures var keys := Column(ZoneView(f), ZoneKey);
            var idx := KeepFirst(keys);
            && (forall a, b :: 0 <= a < b < |idx| ==> keys[idx[a]] != keys[idx[b]])
            && (forall k :: 0 <= k < |idx| ==> IsFirst(keys, idx[k]))
            && (forall i :: 0 <= i < |keys| ==> FirstIndex(keys, keys[i]) in idx)
  {
    var keys := Column(ZoneView(f), ZoneKey);
    KeepFirstDistinct(keys);
    KeepFirstCovers(keys);
  }

  /** Deduplication happens before stripping: in a one-column table of two
      different raw client codes that strip alike, both rows survive, and
      both come out as the same stripped code, so the master ends up with
      that code twice. */
  lemma StrippedKeysCanRepeat(g: Frame, l: string)
    requires WellFormed(g) && g.columns == [l] && |g.rows| == 2
    requires g.rows[0][0] != g.rows[1][0] && Stripped(g.rows[0][0]) == Stripped(g.rows[1][0])
    ensures Count(g.columns, l) == 1
    ensures var z := DedupThenStrip(g, l);
            |z.rows| == 2 && z.rows[0][0] == z.rows[1][0] == Stripped(g.rows[0][0])
  {
    SingleColumnPair(g, l);
    KeptPairCollides(g, l);
  }

  /** The key column of such a table, and what deduplication keeps of it. */
  lemma SingleColumnPair(g: Frame, l: string)
    requires WellFormed(g) && g.columns == [l] && |g.rows| == 2
    requires g.rows[0][0] != g.rows[1][0]
    ensures Count(g.columns, l) == 1
    ensures Column(g, l) == [g.rows[0][0], g.rows[1][0]]
    ensures KeepFirst(Column(g, l)) == [0, 1]
  {
    CountOnce([l], l, 0);
    assert g.rows[0] in g.rows && g.rows[1] in g.rows;
    assert Column(g, l) == [g.rows[0][0], g.rows[1][0]];
    KeepFirstPair(g.rows[0][0], g.rows[1][0]);
  }

  /** A code and the same code with a trailing blank are such a pair. */
  lemma PaddedCodesCollide(x: string)
    requires |x| > 0 && !IsSpace(x[0]) && !IsSpace(x[|x| - 1])
    ensures Str(x) != Str(x + " ") && Stripped(Str(x)) == Stripped(Str(x + " ")) == Str(x)
  {
    assert |x| != |x + " "|;
    StripPadded(x);
  }

  /** Two kept rows of a one-column table come out with the stripped codes
      of the first two rows. */
  lemma KeptPairCollides(g: Frame, l: string)
    requires WellFormed(g) && g.columns == [l] && Count(g.columns, l) == 1
    requires KeepFirst(Column(g, l)) == [0, 1]
    ensures var z := DedupThenStrip(g, l);
            z.columns == [l] && |z.rows| == 2
            && z.rows[0][0] == Stripped(Column(g, l)[0]) && z.rows[1][0] == Stripped(Column(g, l)[1])
  {
    var z := DedupThenStrip(g, l);
    assert z.rows[0] == StrippedRow(g, l, 0) && z.rows[1] == StrippedRow(g, l, 1);
  }

  /** The product master's key candidates: labels naming "CAI" or "COD". */
  predicate IsKeyLike(l: string) {
    Contains(l, "CAI") || Contains(l, "COD")
  }

  /** Index of the first key-like label. */
  function FirstKeyLike(labels: seq<string>): (r: Option<nat>)
    ensures r.Some? ==> r.value < |labels| && IsKeyLike(labels[r.value])
    ensures r.Some? ==> forall j :: 0 <= j < r.value ==> !IsKeyLike(labels[j])
    ensures r.None? <==> forall j :: 0 <= j < |labels| ==> !IsKeyLike(labels[j])
  {
    if |labels| == 0 then None
    else if IsKeyLike(labels[0]) then Some(0)
    else match FirstKeyLike(labels[1..])
      case None => None
      case Some(k) => Some(k + 1)
  }

  /** Fixed renames of the product master, applied whether or not the new
      label is already taken. */
  const ProductRenames: map<string, string> := map[
    "SEGMENTO" := "SEGMENTO LB", "MACRO MACHINE" := "MACRO_ MACHINE", "CLASIFICACION DR" := "CLASIFICACIÓN DR"]

  /** The product master's labels after cleaning and the fixed renames. */
  function RenamedProductLabels(labels: seq<string>): (r: seq<string>)
    ensures |r| == |labels|
    ensures forall k :: 0 <= k < |labels| ==>
              r[k] == (if CleanLabel(labels[k]) in ProductRenames then ProductRenames[CleanLabel(labels[k])] else CleanLabel(labels[k]))
  {
    Rename(CleanLabels(labels), ProductRenames)
  }

  /** The product master's labels: cleaned, renamed, and then the first
      key-like label (every column carrying it) becomes "CAI". With no
      key-like label nothing more changes. */
  function ProductLabels(labels: seq<string>): (r: seq<string>)
    ensures |r| == |labels|
    ensures FirstKeyLike(RenamedProductLabels(labels)).None? ==> r == RenamedProductLabels(labels)
    ensures FirstKeyLike(RenamedProductLabels(labels)).Some? ==>
              var l1 := RenamedProductLabels(labels);
              var key := l1[FirstKeyLike(l1).value];
              forall k :: 0 <= k < |labels| ==> r[k] == (if l1[k] == key then "CAI" else l1[k])
  {
    var l1 := RenamedProductLabels(labels);
    match FirstKeyLike(l1)
    case None => l1
    case Some(j) => Replace(l1, l1[j], "CAI")
  }

  /** After the product master's relabelling, a "CAI" column exists exactly
      when some cleaned and renamed label names "CAI" or "COD". */
  lemma ProductKeyPresent(labels: seq<string>)
    ensures var l1 := RenamedProductLabels(labels);
            "CAI" in ProductLabels(labels) <==> exists j :: 0 <= j < |l1| && IsKeyLike(l1[j])
  {
    var l1 := RenamedProductLabels(labels);
    assert IsKeyLike("CAI") by { assert OccursAt("CAI", "CAI", 0); }
    match FirstKeyLike(l1)
    case None =>
    case Some(j) =>
      assert ProductLabels(labels)[j] == "CAI";
  }

  /** The product loader: the sheet relabelled, or nothing when there is no sheet. */
  function LoadProducts(sheet: Option<Frame>): (r: Option<Frame>)
    ensures r.Some? <==> sheet.Some?
    ensures r.Some? ==> r.value.rows == sheet.value.rows && r.value.columns == ProductLabels(sheet.value.columns)
    ensures r.Some? && WellFormed(sheet.value) ==> WellFormed(r.value)
  {
    match sheet
    case None => None
    case Some(f) => Some(Relabel(f, ProductLabels(f.columns)))
  }
}
