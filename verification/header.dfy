/** The "header hunter" of the sales loader (Dashboard_SellOut.py,
    `leer_con_header_dinamico`): the first of the top fifteen raw rows that
    holds a sentinel token becomes the header row. */
module HeaderLocator {

  import opened Wrappers
  import opened Text
  import opened Table

  /** The tokens that mark a header row. */
  const Sentinels: seq<string> := ["CAI", "FECHA", "CLIENTE", "CANTIDAD"]

  /** The raw table is read with `nrows=15` for the search. */
  const Lookahead: nat := 15

  /** `row.astype(str).str.upper()` holds a sentinel token. */
  predicate HasSentinel(row: Row) {
    exists j | 0 <= j < |row| :: Upper(Render(row[j])) in Sentinels
  }

  /** Rows at or after i that the search looks at. */
  function Scanned(raw: seq<Row>): nat {
    if |raw| < Lookahead then |raw| else Lookahead
  }

  /** The first sentinel row at or after i among the scanned rows, or 0 when
      there is none. */
  function ScanFrom(raw: seq<Row>, i: nat): (k: nat)
    requires i <= Scanned(raw)
    ensures k == 0 || (i <= k < Scanned(raw) && HasSentinel(raw[k]))
    ensures k != 0 ==> forall j :: i <= j < k ==> !HasSentinel(raw[j])
    ensures (exists j | i <= j < Scanned(raw) :: HasSentinel(raw[j])) ==>
              i <= k < Scanned(raw) && HasSentinel(raw[k]) && forall j :: i <= j < k ==> !HasSentinel(raw[j])
    decreases Scanned(raw) - i
  {
    if i == Scanned(raw) then 0
    else if HasSentinel(raw[i]) then i
    else ScanFrom(raw, i + 1)
  }

  /** `fila_header`: the index of the first scanned row holding a sentinel,
      and 0 when no scanned row holds one. */
  function LocateHeader(raw: seq<Row>): (k: nat)
    ensures k < Lookahead
    ensures k == 0 || k < |raw|
    ensures forall j :: 0 <= j < k ==> !HasSentinel(raw[j])
    ensures (exists j | 0 <= j < Scanned(raw) :: HasSentinel(raw[j])) <==> k < |raw| && HasSentinel(raw[k])
  {
    ScanFrom(raw, 0)
  }

  /** The locator answers k exactly when row k is the first sentinel row, and
      answers 0 when the first fifteen rows hold no sentinel at all. */
  lemma LocateHeaderExact(raw: seq<Row>, k: nat)
    requires k < Lookahead && k < |raw| && HasSentinel(raw[k])
    requires forall j :: 0 <= j < k ==> !HasSentinel(raw[j])
    ensures LocateHeader(raw) == k
  {
    assert k < Scanned(raw) && HasSentinel(raw[k]);
  }

  lemma LocateHeaderDefault(raw: seq<Row>)
    requires forall j :: 0 <= j < |raw| && j < Lookahead ==> !HasSentinel(raw[j])
    ensures LocateHeader(raw) == 0
  {
  }

  /** The label pandas gives a header cell: its text, or "Unnamed: j" when the
      cell is empty. */
  function HeaderLabel(c: Cell, j: nat): string {
    if c == Null then "Unnamed: " + IntToString(j) else Render(c)
  }

  /** A data row cut or padded with missing cells to the header's width. */
  function Fit(row: Row, w: nat): (r: Row)
    ensures |r| == w
    ensures forall j :: 0 <= j < w ==> r[j] == CellAt(row, j)
  {
    seq(w, j requires 0 <= j < w => CellAt(row, j))
  }

  /** The labels pandas reads off a header row, before repeats are renamed. */
  function HeaderLabels(row: Row): (r: seq<string>)
    ensures |r| == |row| && forall j :: 0 <= j < |row| ==> r[j] == HeaderLabel(row[j], j)
  {
    seq(|row|, j requires 0 <= j < |row| => HeaderLabel(row[j], j))
  }

  /** The label pandas gives position j: a first occurrence keeps its label,
      and the n-th repeat of a label X (n >= 1) is read as "X.n". */
  function Mangled(labels: seq<string>, j: nat): string
    requires j < |labels|
  {
    var n := Count(labels[..j], labels[j]);
    if n == 0 then labels[j] else labels[j] + "." + IntToString(n)
  }

  /** Every header label renamed as pandas renames repeats. */
  function Mangle(labels: seq<string>): (r: seq<string>)
    ensures |r| == |labels|
    ensures forall j :: 0 <= j < |labels| ==> r[j] == Mangled(labels, j)
  {
    seq(|labels|, j requires 0 <= j < |labels| => Mangled(labels, j))
  }

  /** After the renaming, a label without a period is carried once when the
      header named it, however often it did, and not at all otherwise. */
  lemma {:induction false} MangleCount(labels: seq<string>, l: string)
    requires '.' !in l
    ensures Count(Mangle(labels), l) == if l in labels then 1 else 0
    decreases |labels|
  {
    if |labels| > 0 {
      var n := |labels| - 1;
      var m := Mangle(labels);
      var x := labels[n];
      assert m[..n] == Mangle(labels[..n]) by {
        forall j | 0 <= j < n
          ensures m[..n][j] == Mangle(labels[..n])[j]
        {
          assert labels[..n][..j] == labels[..j];
        }
      }
      MangleCount(labels[..n], l);
      assert labels == labels[..n] + [x];
      if Count(labels[..n], x) > 0 {
        assert m[n][|x|] == '.';
      }
    }
  }

  /** A header naming the client twice is read as "CLIENTE", "CLIENTE.1". */
  lemma RepeatedClientRenamed()
    ensures Mangle(["CLIENTE", "CLIENTE"]) == ["CLIENTE", "CLIENTE.1"]
  {
    var l := ["CLIENTE", "CLIENTE"];
    var m := Mangle(l);
    assert l[..1] == ["CLIENTE"] && l[..0] == [];
    assert Count(l[..0], l[0]) == 0;
    assert Count(l[..1], l[1]) == 1;
    assert IntToString(1) == "1" by { assert NatToString(1) == [Digit(1)]; }
    assert m[0] == "CLIENTE";
    assert m[1] == "CLIENTE" + "." + "1" == "CLIENTE.1";
    assert m == [m[0], m[1]];
  }

  /** Re-reading the table with `header=k`: row k gives the labels, repeats
      renamed, and the rows below it the data. An empty table cannot be read. */
  function ReadWithHeader(raw: seq<Row>, k: nat): (f: Option<Frame>)
    ensures f.Some? <==> k < |raw|
    ensures f.Some? ==> WellFormed(f.value)
    ensures f.Some? ==> f.value.columns == Mangle(HeaderLabels(raw[k]))
    ensures f.Some? ==> |f.value.columns| == |raw[k]| && |f.value.rows| == |raw| - k - 1
    ensures f.Some? ==> forall i, j :: 0 <= i < |f.value.rows| && 0 <= j < |raw[k]| ==>
              f.value.rows[i][j] == CellAt(raw[k + 1 + i], j)
  {
    if k < |raw| then
      var w := |raw[k]|;
      var rows := seq(|raw| - k - 1, i requires 0 <= i < |raw| - k - 1 => Fit(raw[k + 1 + i], w));
      assert forall i :: 0 <= i < |rows| ==> rows[i] == Fit(raw[k + 1 + i], w);
      Some(Frame(Mangle(HeaderLabels(raw[k])), rows))
    else None
  }

  /** A header naming a label without a period, even several times, gives
      a table carrying that label exactly once. */
  lemma ReadHeaderOnce(raw: seq<Row>, k: nat, l: string)
    requires k < |raw| && '.' !in l && l in HeaderLabels(raw[k])
    ensures Count(ReadWithHeader(raw, k).value.columns, l) == 1
  {
    MangleCount(HeaderLabels(raw[k]), l);
  }

  /** A file whose third row is the first to name a sentinel gets that row as header. */
  lemma ThirdRowHeader()
    ensures LocateHeader([[Str("Reporte Sell Out")], [Null, Str("2024")], [Str("Cod.Cliente"), Str("Cai"), Str("Cantidad")]]) == 2
  {
    TitleRowHasNoSentinel();
    YearRowHasNoSentinel();
    LabelRowHasSentinel();
    ThirdOfThree([Str("Reporte Sell Out")], [Null, Str("2024")], [Str("Cod.Cliente"), Str("Cai"), Str("Cantidad")]);
  }

  /** Of three rows, a third that alone holds a sentinel is the header. */
  lemma ThirdOfThree(a: Row, b: Row, c: Row)
    requires !HasSentinel(a) && !HasSentinel(b) && HasSentinel(c)
    ensures LocateHeader([a, b, c]) == 2
  {
    LocateHeaderExact([a, b, c], 2);
  }

  lemma TitleRowHasNoSentinel()
    ensures !HasSentinel([Str("Reporte Sell Out")])
  {
    assert Upper(Render(Str("Reporte Sell Out"))) == "REPORTE SELL OUT";
  }

  lemma YearRowHasNoSentinel()
    ensures !HasSentinel([Null, Str("2024")])
  {
    var row := [Null, Str("2024")];
    assert Upper(Render(row[0])) == "NAN";
    assert Upper(Render(row[1])) == "2024";
  }

  lemma LabelRowHasSentinel()
    ensures HasSentinel([Str("Cod.Cliente"), Str("Cai"), Str("Cantidad")])
  {
    var row := [Str("Cod.Cliente"), Str("Cai"), Str("Cantidad")];
    assert Upper(Render(row[1])) == "CAI";
  }
}
