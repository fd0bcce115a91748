/** The trend monitor's table: the filtered facts grouped by client, product
    code and (when present) denomination and classification; per group the
    current and previous quantities of each window, the total of a chosen
    year, the last purchase date as epoch milliseconds, and the product
    description shown in the tree. */
module Trend {

  import opened Wrappers
  import opened Text
  import opened Table
  import opened Dates
  import opened Windows
  import opened Groups
  import opened Reconcile

  /** The key columns: client and stripped product code, then the
      denomination and the classification when the table has them. */
  function BaseLabels(labels: seq<string>): (r: seq<string>)
    ensures |r| >= 2 && r[0] == "CLIENTE" && r[1] == CleanKey
    ensures |r| >= 3 && r[2] == "DENOMINATION" <==> "DENOMINATION" in labels
    ensures "CLASIFICACIÓN DR" in r <==> "CLASIFICACIÓN DR" in labels
  {
    ["CLIENTE", CleanKey]
      + (if "DENOMINATION" in labels then ["DENOMINATION"] else [])
      + (if "CLASIFICACIÓN DR" in labels then ["CLASIFICACIÓN DR"] else [])
  }

  /** Every column the monitor reads: the key columns, the date and the
      quantity, none of them twice. */
  function Needed(labels: seq<string>): (r: seq<string>)
    ensures r == BaseLabels(labels) + ["FECHA_DT", "CANTIDAD"]
    ensures forall a, b :: 0 <= a < b < |r| ==> r[a] != r[b]
  {
    BaseLabels(labels) + ["FECHA_DT", "CANTIDAD"]
  }

  /** "NOMBRE CLIENTE" copied into "CLIENTE" when only the former exists;
      copying a label several columns carry fails. */
  function WithClient(f: Frame): (r: Result<Frame, Fault>)
    requires WellFormed(f)
    ensures r.Failure? <==> "CLIENTE" !in f.columns && Count(f.columns, "NOMBRE CLIENTE") > 1
    ensures r.Success? ==> WellFormed(r.value) && |r.value.rows| == |f.rows|
    ensures r.Success? && "CLIENTE" in f.columns ==> r.value == f
    ensures r.Success? && "CLIENTE" !in f.columns && "NOMBRE CLIENTE" in f.columns ==>
              r.value.columns == f.columns + ["CLIENTE"] &&
              forall i :: 0 <= i < |f.rows| ==>
                CellAt(r.value.rows[i], |f.columns|) == CellAt(f.rows[i], IndexOf(f.columns, "NOMBRE CLIENTE"))
  {
    if "NOMBRE CLIENTE" in f.columns && "CLIENTE" !in f.columns then
      if Count(f.columns, "NOMBRE CLIENTE") > 1 then Failure(BadColumn("NOMBRE CLIENTE"))
      else
        var g := SetColumn(f, "CLIENTE", Column(f, "NOMBRE CLIENTE"));
        assert forall i :: 0 <= i < |f.rows| ==> g.rows[i] == f.rows[i] + [Column(f, "NOMBRE CLIENTE")[i]];
        Success(g)
    else Success(f)
  }

  /** A quantity cell as the sums see it: a number, or nothing. */
  function Quantity(c: Cell): (q: int)
    ensures c.Num? ==> q == c.n
    ensures !c.Num? ==> q == 0
  {
    if c.Num? then c.n else 0
  }

  /** Whether a table with these labels carries every needed label exactly
      once, and so carries each of them. */
  predicate Readable(labels: seq<string>) {
    && Unique(labels, Needed(labels))
    && (forall k :: 0 <= k < |BaseLabels(labels)| ==> BaseLabels(labels)[k] in labels)
    && "FECHA_DT" in labels && "CANTIDAD" in labels
  }

  /** Whether each of the wanted labels is carried by exactly one column. */
  predicate Unique(labels: seq<string>, wanted: seq<string>) {
    forall l :: l in wanted ==> Count(labels, l) == 1
  }

  /** A row of a table carrying every needed label once, read as a fact. */
  function FactOf(labels: seq<string>, row: Row): (x: Fact)
    requires Readable(labels)
    ensures |x.key| == |BaseLabels(labels)|
    ensures forall k :: 0 <= k < |x.key| ==> x.key[k] == CellAt(row, IndexOf(labels, BaseLabels(labels)[k]))
    ensures x.date == DateOf(CellAt(row, IndexOf(labels, "FECHA_DT")))
    ensures x.qty == Quantity(CellAt(row, IndexOf(labels, "CANTIDAD")))
  {
    var base := BaseLabels(labels);
    Fact(seq(|base|, k requires 0 <= k < |base| => CellAt(row, IndexOf(labels, base[k]))),
         DateOf(CellAt(row, IndexOf(labels, "FECHA_DT"))),
         Quantity(CellAt(row, IndexOf(labels, "CANTIDAD"))))
  }

  /** The facts of a table. A needed label that is absent fails, and so
      does one several columns carry. */
  function FactsOf(f: Frame): (r: Result<seq<Fact>, Fault>)
    requires WellFormed(f)
    ensures r.Failure? <==> !Readable(f.columns)
    ensures r.Success? ==> |r.value| == |f.rows| && forall i :: 0 <= i < |f.rows| ==> r.value[i] == FactOf(f.columns, f.rows[i])
    ensures r.Success? ==> KeysFit(r.value, "DENOMINATION" in f.columns)
  {
    var needed := Needed(f.columns);
    match FirstWhere(needed, l => Count(f.columns, l) != 1)
    case Some(k) => Failure(BadColumn(needed[k]))
    case None =>
      ReadableReads(f.columns);
      Success(seq(|f.rows|, i requires 0 <= i < |f.rows| => FactOf(f.columns, f.rows[i])))
  }

  /** A table carrying every needed label once can be read as facts. */
  lemma ReadableReads(labels: seq<string>)
    requires Unique(labels, Needed(labels))
    ensures Readable(labels)
  {
    var needed := Needed(labels);
    forall k | 0 <= k < |BaseLabels(labels)|
      ensures BaseLabels(labels)[k] in labels
    {
      assert BaseLabels(labels)[k] == needed[k];
      assert Count(labels, needed[k]) == 1;
    }
    assert needed[|needed| - 2] == "FECHA_DT" && needed[|needed| - 1] == "CANTIDAD";
    assert Count(labels, needed[|needed| - 2]) == 1 && Count(labels, needed[|needed| - 1]) == 1;
  }

  /** Whether some fact has a date. */
  predicate Dated(facts: seq<Fact>) {
    exists i :: 0 <= i < |facts| && facts[i].date.Some?
  }

  /** The date the windows end at: the latest fact date, or now when no
      fact has one. */
  function EndDate(facts: seq<Fact>, now: Date): (d: Date)
    ensures !Dated(facts) ==> d == now
    ensures Dated(facts) ==> exists i :: 0 <= i < |facts| && facts[i].date == Some(d)
    ensures forall i :: 0 <= i < |facts| && facts[i].date.Some? ==> facts[i].date.value <= d
  {
    match LatestWhere(facts, AnyFact())
    case None => now
    case Some(d) => d
  }

  /** `if anio_ref:` -- no year, or year 0, selects no year total. */
  predicate YearChosen(year: Option<int>) {
    year.Some? && year.value != 0
  }

  /** The label of the year-total column. A chosen year can be read back
      from it, so it never reads as the generic "TOTAL AÑO". */
  function TotalLabel(year: Option<int>): (l: string)
    ensures YearChosen(year) ==> l == "TOTAL " + IntToString(year.value)
    ensures !YearChosen(year) ==> l == "TOTAL AÑO"
    ensures |l| > 6 && l[..6] == "TOTAL "
    ensures YearChosen(year) ==> ParseInt(l[6..]) == Some(year.value) && l != "TOTAL AÑO"
  {
    if YearChosen(year) then
      var l := "TOTAL " + IntToString(year.value);
      IntRoundTrip(year.value);
      assert l[6..] == IntToString(year.value);
      assert ParseInt("AÑO") == None by { assert "AÑO"[0] == 'A'; }
      l
    else "TOTAL AÑO"
  }

  /** Different chosen years label their total columns differently. */
  lemma TotalLabelInjective(a: Option<int>, b: Option<int>)
    requires YearChosen(a) && YearChosen(b) && TotalLabel(a) == TotalLabel(b)
    ensures a == b
  {
  }

  /** The dates in a given year; a missing date is in none. */
  function InYear(cal: Calendar, y: int): Option<Date> -> bool {
    (d: Option<Date>) => d.Some? && cal.yearOf(d.value) == y
  }

  /** The dates of a window's current bucket. */
  function ActOf(w: Window): Option<Date> -> bool {
    (d: Option<Date>) => InAct(w, d)
  }

  /** The dates of a window's previous bucket. */
  function PrevOf(w: Window): Option<Date> -> bool {
    (d: Option<Date>) => InPrev(w, d)
  }

  /** One line of the monitor. */
  datatype Line = Line(key: seq<Cell>, prev: seq<int>, act: seq<int>, total: int, lastMs: int, desc: string)

  /** The monitor's table: the date the windows end at, the year-total label
      and one line per group. */
  datatype Monitor = Monitor(end: Date, totalLabel: string, lines: seq<Line>)

  /** The product description: the code, then " | " and the denomination
      when the key carries one. A code without a bar can be read back from
      the description. */
  function Describe(key: seq<Cell>, withDenomination: bool): (s: string)
    requires |key| >= 2 && (withDenomination ==> |key| >= 3)
    ensures withDenomination ==> s == Render(key[1]) + " | " + Render(key[2])
    ensures !withDenomination ==> s == Render(key[1])
    ensures '|' !in Render(key[1]) ==> CodeOfDescription(s) == Render(key[1])
  {
    var code := Render(key[1]);
    CodeReadBack(code, if withDenomination then Render(key[2]) else "");
    if withDenomination then code + " | " + Render(key[2]) else code
  }

  /** The position of the first bar in s, or |s| when there is none. */
  function BarAt(s: string): (k: nat)
    ensures k <= |s| && (k < |s| ==> s[k] == '|')
    ensures forall j :: 0 <= j < k ==> s[j] != '|'
  {
    if |s| == 0 then 0 else if s[0] == '|' then 0 else 1 + BarAt(s[1..])
  }

  /** The code shown in a description: the text before its first " | ",
      or all of it. */
  function CodeOfDescription(s: string): string {
    var k := BarAt(s);
    if 0 < k < |s| && s[k - 1] == ' ' then s[..k - 1] else s
  }

  /** A code without a bar is read back from its description, with or
      without a denomination behind it. */
  lemma CodeReadBack(code: string, den: string)
    ensures '|' !in code ==> CodeOfDescription(code + " | " + den) == code && CodeOfDescription(code) == code
  {
    if '|' !in code {
      var s := code + " | " + den;
      assert s[|code| + 1] == '|';
      assert forall j :: 0 <= j < |code| ==> s[j] == code[j];
      assert BarAt(s) == |code| + 1;
      assert BarAt(code) == |code|;
    }
  }

  /** Whether every fact's key has a product code, and a denomination when
      the description shows one. */
  predicate KeysFit(facts: seq<Fact>, withDenomination: bool) {
    forall i :: 0 <= i < |facts| ==> |facts[i].key| >= 2 && (withDenomination ==> |facts[i].key| >= 3)
  }

  /** The line of group key. */
  function LineOf(facts: seq<Fact>, key: seq<Cell>, ws: seq<Window>, cal: Calendar, year: Option<int>, withDenomination: bool): (l: Line)
    requires |key| >= 2 && (withDenomination ==> |key| >= 3)
    ensures l.key == key && |l.prev| == |ws| && |l.act| == |ws|
    ensures forall k :: 0 <= k < |ws| ==>
              l.act[k] == SumWhere(facts, key, ActOf(ws[k])) && l.prev[k] == SumWhere(facts, key, PrevOf(ws[k]))
    ensures l.total == (if YearChosen(year) then SumWhere(facts, key, InYear(cal, year.value)) else 0)
    ensures LatestWhere(facts, InGroup(key)).None? ==> l.lastMs == 0
    ensures LatestWhere(facts, InGroup(key)).Some? ==> l.lastMs == EpochMs(LatestWhere(facts, InGroup(key)).value)
    ensures l.desc == Describe(key, withDenomination)
    ensures forall i :: 0 <= i < |facts| && facts[i].key == key && facts[i].date.Some? ==>
              EpochMs(facts[i].date.value) <= l.lastMs
    ensures (exists i :: 0 <= i < |facts| && facts[i].key == key && facts[i].date.Some?) ==>
              exists i :: 0 <= i < |facts| && facts[i].key == key && facts[i].date.Some? && l.lastMs == EpochMs(facts[i].date.value)
  {
    var last := LatestWhere(facts, InGroup(key));
    forall i | 0 <= i < |facts| && facts[i].key == key && facts[i].date.Some?
      ensures EpochMs(facts[i].date.value) <= EpochMs(last.value)
    {
      assert InGroup(key)(facts[i]);
      EpochMsMonotone(facts[i].date.value, last.value);
    }
    Line(key,
         seq(|ws|, k requires 0 <= k < |ws| => SumWhere(facts, key, PrevOf(ws[k]))),
         seq(|ws|, k requires 0 <= k < |ws| => SumWhere(facts, key, ActOf(ws[k]))),
         if YearChosen(year) then SumWhere(facts, key, InYear(cal, year.value)) else 0,
         match LatestWhere(facts, InGroup(key)) case None => 0 case Some(d) => EpochMs(d),
         Describe(key, withDenomination))
  }

  /** One line per group, in order of first appearance. */
  function Lines(facts: seq<Fact>, ws: seq<Window>, cal: Calendar, year: Option<int>, withDenomination: bool): (ls: seq<Line>)
    requires KeysFit(facts, withDenomination)
    ensures |ls| == |Keys(facts)| <= |facts|
    ensures forall j :: 0 <= j < |ls| ==> ls[j] == LineOf(facts, Keys(facts)[j], ws, cal, year, withDenomination)
  {
    var ks := Keys(facts);
    assert forall j :: 0 <= j < |ks| ==> |ks[j]| >= 2 && (withDenomination ==> |ks[j]| >= 3);
    seq(|ks|, j requires 0 <= j < |ks| => LineOf(facts, ks[j], ws, cal, year, withDenomination))
  }

  /** The monitor of the facts: the windows end at the latest date (or now),
      a year total is computed only when some fact has a date and a non-zero
      year is picked, and in every window the lines' current quantities add
      up to the current quantity of every fact with a complete key. */
  function MonitorOf(facts: seq<Fact>, cal: Calendar, now: Date, pick: Option<int>, withDenomination: bool): (m: Monitor)
    requires KeysFit(facts, withDenomination)
    ensures m.end == EndDate(facts, now)
    ensures m.totalLabel == TotalLabel(if Dated(facts) then pick else None)
    ensures |m.lines| == |Keys(facts)| <= |facts|
    ensures forall k :: 0 <= k < |Months| ==>
              (forall j :: 0 <= j < |m.lines| ==> k < |m.lines[j].act|) &&
              ActTotal(m.lines, k) == SumGrouped(facts, ActOf(WindowOf(cal, m.end, Months[k])))
  {
    var end := EndDate(facts, now);
    var year := if Dated(facts) then pick else None;
    var ws := All(cal, end);
    ActTotalsCoverFacts(facts, ws, cal, year, withDenomination);
    Monitor(end, TotalLabel(year), Lines(facts, ws, cal, year, withDenomination))
  }

  /** The monitor for the filtered table. An empty table shows nothing; a
      missing or repeated column the monitor reads fails. */
  function BuildMonitor(f: Frame, cal: Calendar, now: Date, pick: Option<int>): (r: Result<Option<Monitor>, Fault>)
    requires WellFormed(f)
    ensures |f.rows| == 0 ==> r == Success(None)
    ensures |f.rows| > 0 ==>
              (r.Failure? <==> WithClient(f).Failure? || !Readable(WithClient(f).value.columns))
    ensures r.Success? && |f.rows| > 0 ==>
              && FactsOf(WithClient(f).value).Success?
              && r.value == Some(MonitorOf(FactsOf(WithClient(f).value).value, cal, now, pick, "DENOMINATION" in WithClient(f).value.columns))
  {
    if |f.rows| == 0 then Success(None)
    else
      match WithClient(f)
      case Failure(e) => Failure(e)
      case Success(g) =>
        match FactsOf(g)
        case Failure(e) => Failure(e)
        case Success(facts) => Success(Some(MonitorOf(facts, cal, now, pick, "DENOMINATION" in g.columns)))
  }

  /** The current quantities of one window, added over the lines. */
  function ActTotal(ls: seq<Line>, k: nat): int
    requires forall j :: 0 <= j < |ls| ==> k < |ls[j].act|
  {
    if |ls| == 0 then 0 else ActTotal(ls[..|ls| - 1], k) + ls[|ls| - 1].act[k]
  }

  /** The lines' current quantities of a window add up to the current
      quantity of every grouped fact: grouping loses and duplicates nothing. */
  lemma {:induction false} ActTotalCoversFacts(facts: seq<Fact>, ws: seq<Window>, cal: Calendar, year: Option<int>, withDenomination: bool, k: nat)
    requires KeysFit(facts, withDenomination)
    requires k < |ws|
    ensures ActTotal(Lines(facts, ws, cal, year, withDenomination), k) == SumGrouped(facts, ActOf(ws[k]))
  {
    var ls := Lines(facts, ws, cal, year, withDenomination);
    var ks := Keys(facts);
    ActPrefix(ls, ks, facts, ws[k], k, |ls|);
    assert ls[..|ls|] == ls && ks[..|ks|] == ks;
    GroupSumsCoverFacts(facts, ActOf(ws[k]));
  }

  /** The above, for every window at once. */
  lemma ActTotalsCoverFacts(facts: seq<Fact>, ws: seq<Window>, cal: Calendar, year: Option<int>, withDenomination: bool)
    requires KeysFit(facts, withDenomination)
    ensures forall k :: 0 <= k < |ws| ==>
              ActTotal(Lines(facts, ws, cal, year, withDenomination), k) == SumGrouped(facts, ActOf(ws[k]))
  {
    forall k | 0 <= k < |ws|
      ensures ActTotal(Lines(facts, ws, cal, year, withDenomination), k) == SumGrouped(facts, ActOf(ws[k]))
    {
      ActTotalCoversFacts(facts, ws, cal, year, withDenomination, k);
    }
  }

  /** Prefix form of the above. */
  lemma {:induction false} ActPrefix(ls: seq<Line>, ks: seq<seq<Cell>>, facts: seq<Fact>, w: Window, k: nat, n: nat)
    requires |ls| == |ks| && n <= |ls|
    requires forall j :: 0 <= j < |ls| ==> k < |ls[j].act| && ls[j].act[k] == SumWhere(facts, ks[j], ActOf(w))
    ensures ActTotal(ls[..n], k) == SumOver(ks[..n], facts, ActOf(w))
  {
    if n > 0 {
      ActPrefix(ls, ks, facts, w, k, n - 1);
      assert ls[..n][..n - 1] == ls[..n - 1];
      assert ks[..n][..n - 1] == ks[..n - 1];
    }
  }

  /** A group none of whose dates falls in the chosen year shows a total
      of zero (the merge leaves it missing and the grid-wide fill makes it
      zero). */
  lemma TotalZeroWithoutYear(facts: seq<Fact>, key: seq<Cell>, ws: seq<Window>, cal: Calendar, year: Option<int>, withDenomination: bool)
    requires |key| >= 2 && (withDenomination ==> |key| >= 3)
    requires YearChosen(year)
    requires forall i :: 0 <= i < |facts| && facts[i].key == key ==> !InYear(cal, year.value)(facts[i].date)
    ensures LineOf(facts, key, ws, cal, year, withDenomination).total == 0
  {
    SumWhereAbsent(facts, key, InYear(cal, year.value));
  }
}
