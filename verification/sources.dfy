/** Which file is the sales export, and which sheet of a workbook is read. */
module Sources {

  import opened Wrappers
  import opened Text

  /** A file name the sales loader accepts: it mentions "Sell Out" or "SO",
      is an .xlsx or .csv file, is not an Office lock file ("~$"), and is not
      one of the reference files (zones, history, product catalogue). */
  predicate IsSalesFile(f: string) {
    && (Contains(f, "Sell Out") || Contains(f, "SO"))
    && (EndsWith(f, ".xlsx") || EndsWith(f, ".csv"))
    && !StartsWith(f, "~$")
    && !Contains(f, "Zonas") && !Contains(f, "historico") && !Contains(f, "CAI")
  }

  /** The first directory entry, in listing order, that is a sales file. */
  function PickSalesFile(names: seq<string>): (r: Option<nat>)
    ensures r.Some? ==> r.value < |names| && IsSalesFile(names[r.value])
    ensures r.Some? ==> forall j :: 0 <= j < r.value ==> !IsSalesFile(names[j])
    ensures r.None? <==> forall j :: 0 <= j < |names| ==> !IsSalesFile(names[j])
  {
    if |names| == 0 then None
    else if IsSalesFile(names[0]) then Some(0)
    else match PickSalesFile(names[1..])
      case None => None
      case Some(k) => Some(k + 1)
  }

  /** The sheet read from a workbook: "Sell Out" when the workbook has one,
      else its first sheet; a workbook without sheets cannot be read. */
  function ChooseSheet(sheets: seq<string>): (r: Option<string>)
    ensures r.Some? <==> |sheets| > 0
    ensures r.Some? ==> r.value in sheets
    ensures r == Some("Sell Out") <==> "Sell Out" in sheets
    ensures "Sell Out" !in sheets && |sheets| > 0 ==> r == Some(sheets[0])
  {
    if "Sell Out" in sheets then Some("Sell Out")
    else if |sheets| > 0 then Some(sheets[0])
    else None
  }

  /** The zone workbook never passes for the sales export. */
  lemma ZoneFileIsNotSales()
    ensures !IsSalesFile("Sell Out Zonas.xlsx")
  {
    assert OccursAt("Sell Out Zonas.xlsx", "Zonas", 9);
  }

  /** A history workbook is refused by name alone, although it mentions
      "Sell Out", is an .xlsx file and is no lock file. */
  lemma HistoryFileIsNotSales()
    ensures var f := "Sell Out historico.xlsx";
            Contains(f, "Sell Out") && EndsWith(f, ".xlsx") && !StartsWith(f, "~$") && !IsSalesFile(f)
  {
    var f := "Sell Out historico.xlsx";
    assert OccursAt(f, "Sell Out", 0);
    assert OccursAt(f, "historico", 9);
    assert f[..2] != "~$" by { assert f[..2][0] == 'S'; }
  }

  /** An Office lock file never passes for the sales export. */
  lemma LockFileIsNotSales()
    ensures !IsSalesFile("~$Sell Out 2024.xlsx")
  {
    assert "~$Sell Out 2024.xlsx"[..2] == "~$";
  }

  /** A plain export does pass. */
  lemma PlainExportIsSales()
    ensures IsSalesFile("Sell Out 2024.xlsx")
  {
    var f := "Sell Out 2024.xlsx";
    assert OccursAt(f, "Sell Out", 0);
    assert f[..2] != "~$" by { assert f[..2][0] == 'S'; }
    assert forall k :: 0 <= k < |f| ==> f[k] != 'Z' && f[k] != 'h' && f[k] != 'C';
    LacksFirstLetter(f, "Zonas");
    LacksFirstLetter(f, "historico");
    LacksFirstLetter(f, "CAI");
  }

  /** A text cannot contain a word whose first letter it never uses. */
  lemma LacksFirstLetter(s: string, t: string)
    requires |t| > 0 && forall k :: 0 <= k < |s| ==> s[k] != t[0]
    ensures !Contains(s, t)
  {
    forall k | 0 <= k <= |s| - |t|
      ensures !OccursAt(s, t, k)
    {
      assert s[k..k + |t|][0] == s[k] != t[0];
    }
  }
}
