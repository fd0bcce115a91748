/** The sidebar's membership filters: seven columns, each narrowed to the
    values picked for it, one after the other. Picking nothing leaves a
    column unfiltered, and a column the table lacks offers no filter. */
module Filters {

  import opened Wrappers
  import opened Table
  import opened Reconcile

  /** One filter: the column it reads and the values picked for it. */
  datatype Choice = Choice(column: string, picked: seq<Cell>)

  /** The values picked in each of the seven filters. The classification
      offers the column's own values; the other six offer them as text. */
  datatype Picks = Picks(
    segment: seq<string>, brand: seq<string>, classification: seq<Cell>,
    manager: seq<string>, department: seq<string>, province: seq<string>, district: seq<string>)

  /** The columns the filters read, in the order they are applied: the
      product filters, then the geographic cascade. */
  const FilterColumns: seq<string> :=
    ["Segmento LB", "MARCA", "CLASIFICACIÓN DR", "ACCOUNT MANAGER", "DEPARTAMENTO", "PROVINCIA", "DISTRITO"]

  /** Options picked from an `astype(str)` list: text values. */
  function Texts(xs: seq<string>): (cs: seq<Cell>)
    ensures |cs| == |xs| && forall k :: 0 <= k < |xs| ==> cs[k] == Str(xs[k])
  {
    seq(|xs|, k requires 0 <= k < |xs| => Str(xs[k]))
  }

  /** The filters in the order they are applied. Each reads its own column,
      no column is read twice, the classification compares the values picked
      as they are, and every other filter compares text. */
  function Choices(p: Picks): (cs: seq<Choice>)
    ensures |cs| == |FilterColumns|
    ensures forall k :: 0 <= k < |cs| ==> cs[k].column == FilterColumns[k]
    ensures forall a, b :: 0 <= a < b < |cs| ==> cs[a].column != cs[b].column
    ensures cs[2].picked == p.classification
    ensures forall k, j :: 0 <= k < |cs| && k != 2 && 0 <= j < |cs[k].picked| ==> cs[k].picked[j].Str?
  {
    [Choice("Segmento LB", Texts(p.segment)), Choice("MARCA", Texts(p.brand)),
     Choice("CLASIFICACIÓN DR", p.classification),
     Choice("ACCOUNT MANAGER", Texts(p.manager)), Choice("DEPARTAMENTO", Texts(p.department)),
     Choice("PROVINCIA", Texts(p.province)), Choice("DISTRITO", Texts(p.district))]
  }

  /** `isin(picked)` on one cell: equal to one of the values picked. */
  predicate Picked(c: Cell, picked: seq<Cell>) {
    c in picked
  }

  /** A text option never matches a number or a missing cell: a number
      offered through `astype(str)` can be picked but filters every row out,
      and so does the "nan" option a missing cell offers. */
  lemma TextPicksMatchOnlyText(c: Cell, picked: seq<string>)
    ensures Picked(c, Texts(picked)) <==> c.Str? && c.s in picked
  {
    if c.Str? && c.s in picked {
      var k :| 0 <= k < |picked| && picked[k] == c.s;
      assert Texts(picked)[k] == c;
    }
  }

  /** Whether one filter lets a row of a table with these labels through. */
  predicate Admits(labels: seq<string>, c: Choice, row: Row) {
    c.column !in labels || |c.picked| == 0 || Picked(CellAt(row, IndexOf(labels, c.column)), c.picked)
  }

  /** Whether every filter lets the row through. */
  predicate Passes(labels: seq<string>, cs: seq<Choice>, row: Row) {
    forall k :: 0 <= k < |cs| ==> Admits(labels, cs[k], row)
  }

  /** The rows q holds of, in their order. */
  function Where(rows: seq<Row>, q: Row -> bool): (r: seq<Row>)
    ensures |r| <= |rows|
    ensures forall k :: 0 <= k < |r| ==> r[k] in rows && q(r[k])
    ensures forall i :: 0 <= i < |rows| && q(rows[i]) ==> rows[i] in r
  {
    if |rows| == 0 then []
    else
      var rest := Where(rows[..|rows| - 1], q);
      if q(rows[|rows| - 1]) then rest + [rows[|rows| - 1]] else rest
  }

  /** One filter. A column the table lacks offers no filter. A column several
      columns carry fails when its options are listed, whatever was picked.
      Nothing picked keeps every row; otherwise the rows whose cell is
      picked are kept, in order. */
  function FilterOn(f: Frame, c: Choice): (r: Result<Frame, Fault>)
    requires WellFormed(f)
    ensures r.Failure? <==> Count(f.columns, c.column) > 1
    ensures r.Success? ==>
              && WellFormed(r.value) && r.value.columns == f.columns
              && r.value.rows == Where(f.rows, row => Admits(f.columns, c, row))
  {
    if c.column !in f.columns then
      WhereAll(f.rows, row => Admits(f.columns, c, row));
      Success(f)
    else if Count(f.columns, c.column) > 1 then Failure(BadColumn(c.column))
    else if |c.picked| == 0 then
      WhereAll(f.rows, row => Admits(f.columns, c, row));
      Success(f)
    else
      var rows := Where(f.rows, row => Admits(f.columns, c, row));
      Success(Frame(f.columns, rows))
  }

  /** Whether some filter reads a column several columns carry. */
  predicate Ambiguous(labels: seq<string>, cs: seq<Choice>) {
    exists k :: 0 <= k < |cs| && Count(labels, cs[k].column) > 1
  }

  /** The filters applied one after the other. The first filter on a
      column several columns carry fails the whole block. */
  function FilterAll(f: Frame, cs: seq<Choice>): (r: Result<Frame, Fault>)
    requires WellFormed(f)
    ensures r.Failure? <==> Ambiguous(f.columns, cs)
    ensures r.Success? ==> WellFormed(r.value) && r.value.columns == f.columns && |r.value.rows| <= |f.rows|
    decreases |cs|
  {
    if |cs| == 0 then Success(f)
    else
      AmbiguousFirst(f.columns, cs);
      match FilterOn(f, cs[0])
      case Failure(e) => Failure(e)
      case Success(g) => FilterAll(g, cs[1..])
  }

  /** Some filter is ambiguous exactly when the first one is or one of the rest is. */
  lemma AmbiguousFirst(labels: seq<string>, cs: seq<Choice>)
    requires |cs| > 0
    ensures Ambiguous(labels, cs) <==> Count(labels, cs[0].column) > 1 || Ambiguous(labels, cs[1..])
  {
    if Ambiguous(labels, cs[1..]) {
      var k :| 0 <= k < |cs| - 1 && Count(labels, cs[1..][k].column) > 1;
      assert cs[1..][k] == cs[k + 1];
    }
    if Ambiguous(labels, cs) && Count(labels, cs[0].column) <= 1 {
      var k :| 0 <= k < |cs| && Count(labels, cs[k].column) > 1;
      assert cs[1..][k - 1] == cs[k];
    }
  }

  /** The dashboard's filter block. */
  function FilterFacts(f: Frame, p: Picks): (r: Result<Frame, Fault>)
    requires WellFormed(f)
    ensures r.Success? ==> WellFormed(r.value) && r.value.columns == f.columns && |r.value.rows| <= |f.rows|
  {
    FilterAll(f, Choices(p))
  }

  /** A filter admitting every row keeps them all. */
  lemma {:induction false} WhereAll(rows: seq<Row>, q: Row -> bool)
    requires forall i :: 0 <= i < |rows| ==> q(rows[i])
    ensures Where(rows, q) == rows
  {
    if |rows| > 0 {
      var n := |rows| - 1;
      WhereAll(rows[..n], q);
      assert rows[..n] + [rows[n]] == rows;
    }
  }

  /** Filtering twice is filtering once by both conditions, order kept. */
  lemma {:induction false} WhereWhere(rows: seq<Row>, p: Row -> bool, q: Row -> bool, pq: Row -> bool)
    requires forall row :: pq(row) == (p(row) && q(row))
    ensures Where(Where(rows, p), q) == Where(rows, pq)
  {
    if |rows| > 0 {
      var n := |rows| - 1;
      WhereWhere(rows[..n], p, q, pq);
      var w := Where(rows[..n], p);
      if p(rows[n]) {
        assert (w + [rows[n]])[..|w|] == w;
      }
    }
  }

  /** Conditions that agree on every row filter alike. */
  lemma {:induction false} WhereSame(rows: seq<Row>, p: Row -> bool, q: Row -> bool)
    requires forall row :: p(row) == q(row)
    ensures Where(rows, p) == Where(rows, q)
  {
    if |rows| > 0 {
      WhereSame(rows[..|rows| - 1], p, q);
    }
  }

  /** Applying the filters one after the other keeps exactly the rows every
      filter admits, in their original order. */
  lemma {:induction false} FilterAllConjunctive(f: Frame, cs: seq<Choice>)
    requires WellFormed(f) && FilterAll(f, cs).Success?
    ensures FilterAll(f, cs).value.rows == Where(f.rows, row => Passes(f.columns, cs, row))
    decreases |cs|
  {
    if |cs| == 0 {
      WhereAll(f.rows, row => Passes(f.columns, cs, row));
    } else {
      var g := FilterOn(f, cs[0]).value;
      var rest := cs[1..];
      assert FilterAll(f, cs) == FilterAll(g, rest);
      FilterAllConjunctive(g, rest);
      var p := row => Admits(f.columns, cs[0], row);
      var q := row => Passes(f.columns, rest, row);
      var pq := row => Passes(f.columns, cs, row);
      forall row
        ensures pq(row) == (p(row) && q(row))
      {
        PassesFirst(f.columns, cs, row);
      }
      WhereSame(g.rows, row => Passes(g.columns, rest, row), q);
      WhereWhere(f.rows, p, q, pq);
    }
  }

  /** A row passes every filter exactly when it passes the first and the rest. */
  lemma PassesFirst(labels: seq<string>, cs: seq<Choice>, row: Row)
    requires |cs| > 0
    ensures Passes(labels, cs, row) == (Admits(labels, cs[0], row) && Passes(labels, cs[1..], row))
  {
    assert forall k :: 1 <= k < |cs| ==> cs[k] == cs[1..][k - 1];
  }

  /** With nothing picked in any filter, every row stays. */
  lemma NothingPickedKeepsAll(f: Frame, cs: seq<Choice>)
    requires WellFormed(f) && FilterAll(f, cs).Success?
    requires forall k :: 0 <= k < |cs| ==> |cs[k].picked| == 0
    ensures FilterAll(f, cs).value == f
  {
    FilterAllConjunctive(f, cs);
    WhereAll(f.rows, row => Passes(f.columns, cs, row));
  }
}
