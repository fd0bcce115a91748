/** The sales-fact loader (`cargar_sell_out_neuma`): header search, label
    normalisation, client clean-up, date derivation and the mandatory
    product-code column. */
module SalesLoader {

  import opened Wrappers
  import opened Text
  import opened Table
  import opened Dates
  import opened HeaderLocator
  import opened Schema

  /** Why a sales load produced no table. `NoSalesFile` and `ReadFailed`
      both end the run with the "file not found" message; `MissingCai` is
      the loader's own fatal stop naming the file. */
  datatype LoadError = NoSalesFile | ReadFailed | MissingCai(file: string)

  /** A located sales export: its file name and its raw rows (no header assumed). */
  datatype Source = Source(name: string, raw: seq<Row>)

  /** Client text clean-up: `str.strip().upper()`, then one trailing "." dropped. */
  function CleanClient(x: string): (r: string)
    ensures var t := Upper(Strip(x));
            && Upper(r) == r
            && (|r| > 0 ==> !IsSpace(r[0]))
            && (r == t || r + "." == t)
            && (EndsWith(t, ".") <==> r != t)
  {
    var s := Strip(x);
    UpperIdempotent(s);
    DropFinalDot(Upper(s))
  }

  /** One trailing period removed from an upper-case text. */
  function DropFinalDot(t: string): (r: string)
    requires Upper(t) == t
    ensures Upper(r) == r
    ensures |r| > 0 && |t| > 0 ==> r[0] == t[0]
    ensures r == t || r + "." == t
    ensures EndsWith(t, ".") <==> r != t
  {
    if |t| > 0 && t[|t| - 1] == '.' then
      var r := t[..|t| - 1];
      assert r + "." == t;
      assert forall k :: 0 <= k < |r| ==> UpperChar(r[k]) == r[k] by {
        assert forall k :: 0 <= k < |t| ==> UpperChar(t[k]) == t[k];
      }
      r
    else t
  }

  /** Only one trailing period goes: a stripped name followed by a period
      comes back as the upper-cased name, whatever periods it ends with itself. */
  lemma CleanClientOneDot(x: string)
    requires |x| > 0 && !IsSpace(x[0])
    ensures CleanClient(x + ".") == Upper(x)
  {
    var t := x + ".";
    assert TrimStart(t) == t;
    assert TrimEnd(t) == t by { assert t[|t| - 1] == '.'; }
    assert Upper(t) == Upper(x) + ".";
  }

  /** Case and surrounding blanks make no difference to the cleaned name. */
  lemma CleanClientIgnoresCase(x: string)
    ensures CleanClient(Upper(x)) == CleanClient(x)
  {
    UpperStripCommute(x);
    UpperIdempotent(Strip(x));
  }

  /** The table read with the located header row. */
  function ReadSheet(raw: seq<Row>): Option<Frame> {
    ReadWithHeader(raw, LocateHeader(raw))
  }

  /** Labels upper-cased, stripped and passed through the synonym table. */
  function Normalized(f: Frame): (g: Frame)
    requires WellFormed(f)
    ensures WellFormed(g) && g.rows == f.rows && g.columns == Normalize(CleanLabels(f.columns))
  {
    Relabel(f, Normalize(CleanLabels(f.columns)))
  }

  /** The client column after clean-up. Reading a label that several columns
      carry yields a sub-table, on which the text methods raise; the loader's
      exception handler then gives up. */
  function CleanClients(f: Frame): (r: Result<Frame, LoadError>)
    requires WellFormed(f)
    ensures r.Failure? <==> Count(f.columns, "CLIENTE") > 1
    ensures r.Failure? ==> r.error == ReadFailed
    ensures r.Success? ==> WellFormed(r.value) && r.value.columns == f.columns && |r.value.rows| == |f.rows|
    ensures r.Success? ==> forall i, k :: 0 <= i < |f.rows| && 0 <= k < |f.columns| ==>
              r.value.rows[i][k] == (if f.columns[k] == "CLIENTE" then Str(CleanClient(Render(f.rows[i][k]))) else f.rows[i][k])
  {
    if "CLIENTE" !in f.columns then Success(f)
    else if Count(f.columns, "CLIENTE") > 1 then Failure(ReadFailed)
    else
      var v := seq(|f.rows|, i requires 0 <= i < |f.rows| => Str(CleanClient(Render(CellAt(f.rows[i], IndexOf(f.columns, "CLIENTE"))))));
      var g := SetColumn(f, "CLIENTE", v);
      assert forall k :: 0 <= k < |f.columns| && f.columns[k] == "CLIENTE" ==> k == IndexOf(f.columns, "CLIENTE") by {
        forall k | 0 <= k < |f.columns| && f.columns[k] == "CLIENTE"
          ensures k == IndexOf(f.columns, "CLIENTE")
        {
          CountUnique(f.columns, "CLIENTE", k, IndexOf(f.columns, "CLIENTE"));
        }
      }
      Success(g)
  }

  /** `pd.to_numeric(cell, errors='coerce')` for integers: None is NaN. */
  function ToNumber(c: Cell): (r: Option<int>)
    ensures c.Num? ==> r == Some(c.n)
    ensures c.Null? ==> r.None?
    ensures c.Str? ==> r == ParseInt(c.s)
  {
    match c
    case Null => None
    case Str(s) => ParseInt(s)
    case Num(n) => Some(n)
    case When(d) => Some(d)
  }

  /** A number written out as text is coerced back to that number. */
  lemma ToNumberReadsPrinted(n: int)
    ensures ToNumber(Str(IntToString(n))) == Some(n)
  {
    IntRoundTrip(n);
  }

  /** A date or NaT as a cell of the `FECHA_DT` column. */
  function DateCell(d: Option<Date>): (c: Cell)
    ensures DateOf(c) == d
  {
    match d
    case None => Null
    case Some(t) => When(t)
  }

  /** The date column. From `FECHA` when present, parsed tolerantly; else
      from `AÑO` and `MES` when both are present, coerced to integers with
      defaults 0 and 1, on the first of the month; else no date column.
      Reading a label several columns carry makes the loader give up. */
  function DeriveDates(f: Frame, cal: Calendar): (r: Result<Frame, LoadError>)
    requires WellFormed(f)
    ensures r.Failure? ==> r.error == ReadFailed
    ensures r.Failure? <==>
              if "FECHA" in f.columns then Count(f.columns, "FECHA") > 1
              else "AÑO" in f.columns && "MES" in f.columns && (Count(f.columns, "AÑO") > 1 || Count(f.columns, "MES") > 1)
    ensures r.Success? ==> WellFormed(r.value) && |r.value.rows| == |f.rows|
    ensures r.Success? ==> r.value.columns == f.columns || r.value.columns == f.columns + ["FECHA_DT"]
    ensures r.Success? && "FECHA" in f.columns ==>
              "FECHA_DT" in r.value.columns && forall i :: 0 <= i < |f.rows| ==>
                DateOf(Column(r.value, "FECHA_DT")[i]) == cal.parse(Column(f, "FECHA")[i])
    ensures r.Success? && "FECHA" !in f.columns && "AÑO" in f.columns && "MES" in f.columns ==>
              "FECHA_DT" in r.value.columns && forall i :: 0 <= i < |f.rows| ==>
                DateOf(Column(r.value, "FECHA_DT")[i]) ==
                  cal.firstOfMonth(ToNumber(Column(f, "AÑO")[i]).GetOr(0), ToNumber(Column(f, "MES")[i]).GetOr(1))
    ensures r.Success? && "FECHA" !in f.columns && !("AÑO" in f.columns && "MES" in f.columns) ==> r.value == f
  {
    if "FECHA" in f.columns then
      if Count(f.columns, "FECHA") > 1 then Failure(ReadFailed)
      else Success(DatesFromText(f, cal))
    else if "AÑO" in f.columns && "MES" in f.columns then
      if Count(f.columns, "AÑO") > 1 || Count(f.columns, "MES") > 1 then Failure(ReadFailed)
      else Success(DatesFromYearMonth(f, cal))
    else Success(f)
  }

  /** The date column parsed from the `FECHA` text. */
  function DatesFromText(f: Frame, cal: Calendar): (g: Frame)
    requires WellFormed(f) && "FECHA" in f.columns
    ensures WellFormed(g) && |g.rows| == |f.rows|
    ensures g.columns == f.columns || g.columns == f.columns + ["FECHA_DT"]
    ensures "FECHA_DT" in g.columns && forall i :: 0 <= i < |f.rows| ==>
              DateOf(Column(g, "FECHA_DT")[i]) == cal.parse(Column(f, "FECHA")[i])
  {
    var src := Column(f, "FECHA");
    SetColumn(f, "FECHA_DT", seq(|f.rows|, i requires 0 <= i < |f.rows| => DateCell(cal.parse(src[i]))))
  }

  /** The date column built from the `AÑO` and `MES` columns, which are
      first coerced to integers (0 and 1 standing for what does not parse). */
  function DatesFromYearMonth(f: Frame, cal: Calendar): (g: Frame)
    requires WellFormed(f) && "AÑO" in f.columns && "MES" in f.columns
    ensures WellFormed(g) && |g.rows| == |f.rows|
    ensures g.columns == f.columns || g.columns == f.columns + ["FECHA_DT"]
    ensures "FECHA_DT" in g.columns && forall i :: 0 <= i < |f.rows| ==>
              DateOf(Column(g, "FECHA_DT")[i]) ==
                cal.firstOfMonth(ToNumber(Column(f, "AÑO")[i]).GetOr(0), ToNumber(Column(f, "MES")[i]).GetOr(1))
  {
    var years := seq(|f.rows|, i requires 0 <= i < |f.rows| => ToNumber(Column(f, "AÑO")[i]).GetOr(0));
    var months := seq(|f.rows|, i requires 0 <= i < |f.rows| => ToNumber(Column(f, "MES")[i]).GetOr(1));
    var f1 := SetColumn(f, "AÑO", seq(|f.rows|, i requires 0 <= i < |f.rows| => Num(years[i])));
    var f2 := SetColumn(f1, "MES", seq(|f.rows|, i requires 0 <= i < |f.rows| => Num(months[i])));
    SetColumn(f2, "FECHA_DT", seq(|f.rows|, i requires 0 <= i < |f.rows| => DateCell(cal.firstOfMonth(years[i], months[i]))))
  }

  /** The labels pandas accepts when assembling dates from columns, mapped
      to the unit they stand for. */
  const UnitAliases: map<string, string> := map[
    "year" := "year", "years" := "year", "month" := "month", "months" := "month",
    "day" := "day", "days" := "day", "hour" := "h", "hours" := "h",
    "minute" := "m", "minutes" := "m", "second" := "s", "seconds" := "s",
    "ms" := "ms", "millisecond" := "ms", "milliseconds" := "ms",
    "us" := "us", "microsecond" := "us", "microseconds" := "us",
    "ns" := "ns", "nanosecond" := "ns", "nanoseconds" := "ns"]

  /** The unit pandas reads a column label as: the label itself, else its
      lower-case form, else no unit (the label unchanged). */
  function UnitOf(name: string): string {
    if name in UnitAliases then UnitAliases[name]
    else if Lower(name) in UnitAliases then UnitAliases[Lower(name)]
    else name
  }

  /** The units among year, month and day that no column label stands for;
      pandas refuses to assemble dates unless this is empty. */
  function MissingUnits(labels: seq<string>): (m: set<string>)
    ensures forall u :: u in m <==>
              u in {"year", "month", "day"} && forall k :: 0 <= k < |labels| ==> UnitOf(labels[k]) != u
  {
    {"year", "month", "day"} - set k | 0 <= k < |labels| :: UnitOf(labels[k])
  }

  /** The `AÑO`/`MES` date branch exactly as written: the frame
      `df[['AÑO', 'MES']].assign(DAY=1)` is handed to `pd.to_datetime`,
      whose column assembly fails unless year, month and day are all named;
      the failure is not covered by `errors='coerce'` and ends the load. */
  function DeriveDatesAsWritten(f: Frame, cal: Calendar): (r: Result<Frame, LoadError>)
    requires WellFormed(f)
    ensures "FECHA" !in f.columns && "AÑO" in f.columns && "MES" in f.columns ==>
              (r.Failure? <==> MissingUnits(["AÑO", "MES", "DAY"]) != {} || Count(f.columns, "AÑO") > 1 || Count(f.columns, "MES") > 1)
    ensures "FECHA" in f.columns || !("AÑO" in f.columns && "MES" in f.columns) ==> r == DeriveDates(f, cal)
  {
    if "FECHA" !in f.columns && "AÑO" in f.columns && "MES" in f.columns && MissingUnits(["AÑO", "MES", "DAY"]) != {} then
      Failure(ReadFailed)
    else DeriveDates(f, cal)
  }

  /** The Spanish labels name no pandas unit, so as written the year/month
      branch fails on every file that reaches it: such a file never loads. */
  lemma DeriveDatesAsWrittenFails(f: Frame, cal: Calendar)
    requires WellFormed(f)
    requires "FECHA" !in f.columns && "AÑO" in f.columns && "MES" in f.columns
    ensures DeriveDatesAsWritten(f, cal) == Failure(ReadFailed)
  {
    SpanishLabelsNameNoUnit();
  }

  /** pandas reads "DAY" as the day unit, but "AÑO" and "MES" as nothing,
      so the year unit is missing. */
  lemma SpanishLabelsNameNoUnit()
    ensures "year" in MissingUnits(["AÑO", "MES", "DAY"])
  {
    var l := ["AÑO", "MES", "DAY"];
    YearLabelNamesNoUnit();
    MonthLabelNamesNoUnit();
    DayLabelNamesDay();
    assert forall k | 0 <= k < |l| :: UnitOf(l[k]) != "year";
  }

  /** "AÑO" is neither a unit nor, lower-cased, one. */
  lemma YearLabelNamesNoUnit()
    ensures UnitOf("AÑO") == "AÑO"
  {
    assert Lower("AÑO") == "año";
  }

  /** "MES" is neither a unit nor, lower-cased, one. */
  lemma MonthLabelNamesNoUnit()
    ensures UnitOf("MES") == "MES"
  {
    assert Lower("MES") == "mes";
  }

  /** "DAY" lower-cased is the day unit. */
  lemma DayLabelNamesDay()
    ensures UnitOf("DAY") == "day"
  {
    assert Lower("DAY") == "day";
  }

  /** English labels would have named every unit: `df[['YEAR', 'MONTH']]`
      with `DAY=1` assembles. */
  lemma EnglishLabelsNameAllUnits()
    ensures MissingUnits(["YEAR", "MONTH", "DAY"]) == {}
  {
    var l := ["YEAR", "MONTH", "DAY"];
    YearWordNamesYear();
    MonthWordNamesMonth();
    DayLabelNamesDay();
    assert UnitOf(l[0]) == "year" && UnitOf(l[1]) == "month" && UnitOf(l[2]) == "day";
  }

  /** "YEAR" lower-cased is the year unit. */
  lemma YearWordNamesYear()
    ensures UnitOf("YEAR") == "year"
  {
    assert Lower("YEAR") == "year";
  }

  /** "MONTH" lower-cased is the month unit. */
  lemma MonthWordNamesMonth()
    ensures UnitOf("MONTH") == "month"
  {
    assert Lower("MONTH") == "month";
  }

  /** With the dates assembled from year and month as intended, a file with
      one `AÑO` and one `MES` column and no `FECHA` loads its dates: each is
      the first of the coerced month. */
  lemma DeriveDatesYearMonth(f: Frame, cal: Calendar)
    requires WellFormed(f)
    requires "FECHA" !in f.columns && Count(f.columns, "AÑO") == 1 && Count(f.columns, "MES") == 1
    ensures DeriveDates(f, cal).Success?
    ensures var g := DeriveDates(f, cal).value;
            "FECHA_DT" in g.columns && forall i :: 0 <= i < |f.rows| ==>
              DateOf(Column(g, "FECHA_DT")[i]) ==
                cal.firstOfMonth(ToNumber(Column(f, "AÑO")[i]).GetOr(0), ToNumber(Column(f, "MES")[i]).GetOr(1))
  {
  }

  /** The normalised labels of a source, when its table can be read. */
  function LoadedLabels(s: Source): Option<seq<string>> {
    match ReadSheet(s.raw)
    case None => None
    case Some(f) => Some(Normalize(CleanLabels(f.columns)))
  }

  /** Neither "CAI" nor a code-like label is among the labels. */
  predicate NoProductCode(labels: seq<string>) {
    "CAI" !in labels && forall j :: 0 <= j < |labels| ==> !IsCodeLike(labels[j])
  }

  /** The whole loader. A run without a sales file, or whose file cannot be
      read, gets no table; a successful load always has a product-code
      column "CAI" and one row per data row under the header; and the load
      stops with `MissingCai` only when, after normalisation, neither "CAI"
      nor a code-like label was found, and always fails then. */
  function LoadSales(src: Option<Source>, cal: Calendar): (r: Result<Frame, LoadError>)
    ensures src.None? ==> r == Failure(NoSalesFile)
    ensures src.Some? && ReadSheet(src.value.raw).None? ==> r == Failure(ReadFailed)
    ensures r.Success? ==> WellFormed(r.value) && "CAI" in r.value.columns
    ensures r.Success? ==> |r.value.rows| == |src.value.raw| - LocateHeader(src.value.raw) - 1
    ensures r.Failure? && r.error.MissingCai? ==>
              src.Some? && r.error.file == src.value.name && LoadedLabels(src.value).Some?
              && NoProductCode(LoadedLabels(src.value).value)
    ensures src.Some? && LoadedLabels(src.value).Some? && NoProductCode(LoadedLabels(src.value).value) ==> r.Failure?
  {
    match src
    case None => Failure(NoSalesFile)
    case Some(s) =>
      match ReadSheet(s.raw)
      case None => Failure(ReadFailed)
      case Some(f0) => LoadRead(f0, s.name, cal)
  }

  /** The loader once the table is read: labels, clients, dates, product code. */
  function LoadRead(f0: Frame, name: string, cal: Calendar): (r: Result<Frame, LoadError>)
    requires WellFormed(f0)
    ensures r.Success? ==> WellFormed(r.value) && "CAI" in r.value.columns && |r.value.rows| == |f0.rows|
    ensures r.Failure? && r.error.MissingCai? ==> r.error.file == name && NoProductCode(Normalize(CleanLabels(f0.columns)))
    ensures NoProductCode(Normalize(CleanLabels(f0.columns))) ==> r.Failure?
  {
    var f1 := Normalized(f0);
    match CleanClients(f1)
    case Failure(e) => Failure(e)
    case Success(f2) =>
      match DeriveDates(f2, cal)
      case Failure(e) => Failure(e)
      case Success(f3) =>
        DateColumnKeepsCodes(f1.columns);
        ResolveCai(f3, name)
  }

  /** Dated by year and month only: no `FECHA`, but both `AÑO` and `MES`. */
  predicate YearMonthOnly(labels: seq<string>) {
    "FECHA" !in labels && "AÑO" in labels && "MES" in labels
  }

  /** The loader once the table is read, with the date step exactly as
      written: every table dated by year and month only is given up on, and
      every other table loads as `LoadRead` loads it. */
  function LoadReadAsWritten(f0: Frame, name: string, cal: Calendar): (r: Result<Frame, LoadError>)
    requires WellFormed(f0)
    ensures YearMonthOnly(Normalize(CleanLabels(f0.columns))) ==> r == Failure(ReadFailed)
    ensures !YearMonthOnly(Normalize(CleanLabels(f0.columns))) ==> r == LoadRead(f0, name, cal)
  {
    var f1 := Normalized(f0);
    match CleanClients(f1)
    case Failure(e) => Failure(e)
    case Success(f2) =>
      SpanishLabelsNameNoUnit();
      match DeriveDatesAsWritten(f2, cal)
      case Failure(e) => Failure(e)
      case Success(f3) =>
        DateColumnKeepsCodes(f1.columns);
        ResolveCai(f3, name)
  }

  /** The product-code step: the fallback relabelling, or the fatal stop. */
  function ResolveCai(f: Frame, file: string): (r: Result<Frame, LoadError>)
    requires WellFormed(f)
    ensures r.Failure? <==> CaiFallback(f.columns).None?
    ensures r.Failure? ==> r.error == MissingCai(file)
    ensures r.Success? ==> WellFormed(r.value) && "CAI" in r.value.columns && r.value.rows == f.rows
  {
    match CaiFallback(f.columns)
    case None => Failure(MissingCai(file))
    case Some(labels) => Success(Relabel(f, labels))
  }

  /** The appended date column is neither "CAI" nor code-like, so it does not
      change whether the product-code step succeeds. */
  lemma DateColumnKeepsCodes(labels: seq<string>)
    ensures CaiFallback(labels + ["FECHA_DT"]).None? <==> CaiFallback(labels).None?
  {
    var l := labels + ["FECHA_DT"];
    assert !IsCodeLike("FECHA_DT") by { assert "FECHA_DT"[..3] == "FEC"; }
    assert "FECHA_DT" != "CAI" by { assert |"FECHA_DT"| == 8; }
    assert forall j :: 0 <= j < |labels| ==> l[j] == labels[j];
  }
}
