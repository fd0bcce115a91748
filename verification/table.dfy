/** A pandas DataFrame as the dashboard uses it: an ordered list of column
    labels (duplicates allowed, as pandas allows them) and rows of cells that
    line up with the labels by position. */
module Table {

  import opened Wrappers
  import opened Text

  /** An instant, counted in nanoseconds since the Unix epoch (pandas' own
      datetime64 representation). Only its order is used by the pipeline. */
  type Date = int

  /** One cell: missing (NaN/NaT), text, an integer, or a timestamp. */
  datatype Cell = Null | Str(s: string) | Num(n: int) | When(d: Date)

  /** `str(value)`, as `Series.astype(str)` renders one cell: a missing value
      becomes the text "nan". */
  function Render(c: Cell): string {
    match c
    case Null => "nan"
    case Str(s) => s
    case Num(n) => IntToString(n)
    case When(d) => IntToString(d)
  }

  type Row = seq<Cell>

  datatype Frame = Frame(columns: seq<string>, rows: seq<Row>)

  /** Every row has exactly one cell per column label. */
  predicate WellFormed(f: Frame) {
    forall r | r in f.rows :: |r| == |f.columns|
  }

  /** Rows all w cells wide. */
  predicate RowsOfWidth(rows: seq<Row>, w: nat) {
    forall j :: 0 <= j < |rows| ==> |rows[j]| == w
  }

  /** The cell at position j, or missing when the row is too short. */
  function CellAt(row: Row, j: nat): Cell {
    if j < |row| then row[j] else Null
  }

  /** A row of n missing cells (the right half of an unmatched left-join row). */
  function Nulls(n: nat): (r: Row)
    ensures |r| == n && forall k :: 0 <= k < n ==> r[k] == Null
  {
    seq(n, k => Null)
  }

  /** Position of the first column carrying the label. */
  function IndexOf(labels: seq<string>, l: string): (k: nat)
    requires l in labels
    ensures k < |labels| && labels[k] == l
    ensures forall j :: 0 <= j < k ==> labels[j] != l
  {
    if labels[0] == l then 0 else 1 + IndexOf(labels[1..], l)
  }

  /** How many columns carry the label. */
  function Count(labels: seq<string>, l: string): (n: nat)
    ensures n == 0 <==> l !in labels
    ensures n <= |labels|
  {
    if |labels| == 0 then 0
    else Count(labels[..|labels| - 1], l) + (if labels[|labels| - 1] == l then 1 else 0)
  }

  /** A label carried by at most one column sits at a single position. */
  lemma {:induction false} CountUnique(labels: seq<string>, l: string, a: nat, b: nat)
    requires Count(labels, l) <= 1
    requires a < |labels| && b < |labels| && labels[a] == l && labels[b] == l
    ensures a == b
  {
    var n := |labels| - 1;
    if a != b && a < n && b < n {
      CountUnique(labels[..n], l, a, b);
    }
  }

  /** A label carried at exactly one position is counted once. */
  lemma {:induction false} CountOnce(labels: seq<string>, l: string, i: nat)
    requires i < |labels| && labels[i] == l
    requires forall k :: 0 <= k < |labels| && k != i ==> labels[k] != l
    ensures Count(labels, l) == 1
  {
    var n := |labels| - 1;
    if n != i {
      CountOnce(labels[..n], l, i);
    } else {
      assert l !in labels[..n];
    }
  }

  /** Counting over a concatenation adds up. */
  lemma {:induction false} CountConcat(a: seq<string>, b: seq<string>, l: string)
    ensures Count(a + b, l) == Count(a, l) + Count(b, l)
    decreases |b|
  {
    if |b| == 0 {
      assert a + b == a;
    } else {
      var n := |b| - 1;
      assert (a + b)[..|a + b| - 1] == a + b[..n];
      assert (a + b)[|a + b| - 1] == b[n];
      CountConcat(a, b[..n], l);
    }
  }

  /** n copies of one label. */
  function Repeat(w: string, n: nat): (r: seq<string>)
    ensures |r| == n && forall k :: 0 <= k < n ==> r[k] == w
  {
    seq(n, k => w)
  }

  lemma {:induction false} CountRepeat(w: string, n: nat, l: string)
    ensures Count(Repeat(w, n), l) == if w == l then n else 0
    decreases n
  {
    if n > 0 {
      assert Repeat(w, n)[..n - 1] == Repeat(w, n - 1);
      CountRepeat(w, n - 1, l);
    }
  }

  /** `df.rename(columns=m)`: every label that is a key of m is replaced, all at once. */
  function Rename(labels: seq<string>, m: map<string, string>): (r: seq<string>)
    ensures |r| == |labels|
    ensures forall k :: 0 <= k < |labels| ==> r[k] == (if labels[k] in m then m[labels[k]] else labels[k])
  {
    seq(|labels|, k requires 0 <= k < |labels| => if labels[k] in m then m[labels[k]] else labels[k])
  }

  /** `df.rename(columns={from: to})`: every column labelled `from` is relabelled `to`. */
  function Replace(labels: seq<string>, from: string, to: string): (r: seq<string>)
    ensures |r| == |labels|
    ensures forall k :: 0 <= k < |labels| ==> r[k] == (if labels[k] == from then to else labels[k])
  {
    seq(|labels|, k requires 0 <= k < |labels| => if labels[k] == from then to else labels[k])
  }

  /** A frame with the same rows under new labels. */
  function Relabel(f: Frame, labels: seq<string>): (g: Frame)
    requires |labels| == |f.columns|
    ensures WellFormed(f) ==> WellFormed(g)
  {
    Frame(labels, f.rows)
  }

  /** Positions of the columns whose label satisfies p, in increasing order. */
  function PositionsWhere(labels: seq<string>, p: string -> bool): (pos: seq<nat>)
    ensures |pos| <= |labels|
    ensures forall k :: 0 <= k < |pos| ==> pos[k] < |labels| && p(labels[pos[k]])
    ensures forall a, b :: 0 <= a < b < |pos| ==> pos[a] < pos[b]
  {
    if |labels| == 0 then []
    else
      var n := |labels| - 1;
      var rest := PositionsWhere(labels[..n], p);
      assert forall j :: 0 <= j < n ==> labels[..n][j] == labels[j];
      if p(labels[n]) then rest + [n] else rest
  }

  /** Positions of the columns carrying label w, in increasing order. */
  function PositionsOf(labels: seq<string>, w: string): (pos: seq<nat>)
    ensures forall k :: 0 <= k < |pos| ==> pos[k] < |labels| && labels[pos[k]] == w
    ensures |pos| == Count(labels, w)
  {
    if |labels| == 0 then []
    else
      var n := |labels| - 1;
      var rest := PositionsOf(labels[..n], w);
      if labels[n] == w then rest + [n] else rest
  }

  /** `df[wanted]` for a list of labels: for each wanted label in turn, every
      column carrying it. */
  function SelectPositions(labels: seq<string>, wanted: seq<string>): (pos: seq<nat>)
    ensures forall k :: 0 <= k < |pos| ==> pos[k] < |labels| && labels[pos[k]] in wanted
  {
    if |wanted| == 0 then []
    else SelectPositions(labels, wanted[..|wanted| - 1]) + PositionsOf(labels, wanted[|wanted| - 1])
  }

  /** The labels a selection yields: each wanted label in the order asked,
      repeated once per column carrying it. */
  function Copies(labels: seq<string>, wanted: seq<string>): seq<string> {
    if |wanted| == 0 then []
    else Copies(labels, wanted[..|wanted| - 1]) + Repeat(wanted[|wanted| - 1], Count(labels, wanted[|wanted| - 1]))
  }

  /** The elements (labels or rows) at the given positions, in their order. */
  function At<T>(xs: seq<T>, pos: seq<nat>): (r: seq<T>)
    requires forall k :: 0 <= k < |pos| ==> pos[k] < |xs|
    ensures |r| == |pos| && forall k :: 0 <= k < |pos| ==> r[k] == xs[pos[k]]
  {
    seq(|pos|, k requires 0 <= k < |pos| => xs[pos[k]])
  }

  /** Selecting by a list of labels yields exactly the wanted labels present,
      in the order asked, with all their copies. */
  lemma {:induction false} SelectedLabels(labels: seq<string>, wanted: seq<string>)
    ensures At(labels, SelectPositions(labels, wanted)) == Copies(labels, wanted)
    decreases |wanted|
  {
    if |wanted| > 0 {
      var n := |wanted| - 1;
      SelectedLabels(labels, wanted[..n]);
      var a := SelectPositions(labels, wanted[..n]);
      var b := PositionsOf(labels, wanted[n]);
      assert At(labels, a + b) == At(labels, a) + At(labels, b);
    }
  }

  /** A selection asking for a label at most once holds it as many times as
      the columns carry it when asked for, and not at all otherwise. */
  lemma {:induction false} CountCopies(labels: seq<string>, wanted: seq<string>, l: string)
    requires Count(wanted, l) <= 1
    ensures Count(Copies(labels, wanted), l) == if l in wanted then Count(labels, l) else 0
    decreases |wanted|
  {
    if |wanted| > 0 {
      var n := |wanted| - 1;
      var rep := Repeat(wanted[n], Count(labels, wanted[n]));
      assert Copies(labels, wanted) == Copies(labels, wanted[..n]) + rep;
      assert wanted == wanted[..n] + [wanted[n]];
      CountCopies(labels, wanted[..n], l);
      CountConcat(Copies(labels, wanted[..n]), rep, l);
      CountRepeat(wanted[n], Count(labels, wanted[n]), l);
    }
  }

  /** The cells of a row at the given positions. */
  function Pick(row: Row, pos: seq<nat>): (r: Row)
    ensures |r| == |pos|
    ensures forall k :: 0 <= k < |pos| ==> r[k] == CellAt(row, pos[k])
  {
    seq(|pos|, k requires 0 <= k < |pos| => CellAt(row, pos[k]))
  }

  /** The frame restricted to the columns at the given positions. */
  function Project(f: Frame, pos: seq<nat>): (g: Frame)
    requires forall k :: 0 <= k < |pos| ==> pos[k] < |f.columns|
    ensures WellFormed(g)
    ensures |g.columns| == |pos| && |g.rows| == |f.rows|
    ensures forall k :: 0 <= k < |pos| ==> g.columns[k] == f.columns[pos[k]]
    ensures forall i :: 0 <= i < |f.rows| ==> g.rows[i] == Pick(f.rows[i], pos)
  {
    Frame(seq(|pos|, k requires 0 <= k < |pos| => f.columns[pos[k]]),
          seq(|f.rows|, i requires 0 <= i < |f.rows| => Pick(f.rows[i], pos)))
  }

  /** `df[wanted]` */
  function Select(f: Frame, wanted: seq<string>): (g: Frame)
    ensures WellFormed(g) && |g.rows| == |f.rows|
  {
    Project(f, SelectPositions(f.columns, wanted))
  }

  /** Selecting by a list of labels yields exactly the wanted labels present,
      in the order asked, with all their copies. */
  lemma SelectColumns(f: Frame, wanted: seq<string>)
    ensures Select(f, wanted).columns == Copies(f.columns, wanted)
  {
    SelectedLabels(f.columns, wanted);
  }

  /** `df.drop(columns=[...])` generalised to a label predicate: keeps the
      columns whose label does not satisfy p. */
  function DropWhere(f: Frame, p: string -> bool): (g: Frame)
    ensures WellFormed(g) && |g.rows| == |f.rows|
    ensures forall k :: 0 <= k < |g.columns| ==> !p(g.columns[k])
    ensures Restricts(f, g, PositionsWhere(f.columns, l => !p(l)))
  {
    Project(f, PositionsWhere(f.columns, l => !p(l)))
  }

  /** g is f restricted to the columns at the given positions, in their
      order, each with its cells. */
  predicate Restricts(f: Frame, g: Frame, pos: seq<nat>) {
    && |g.columns| == |pos| && |g.rows| == |f.rows|
    && (forall k :: 0 <= k < |pos| ==> pos[k] < |f.columns| && g.columns[k] == f.columns[pos[k]])
    && (forall i, k :: 0 <= i < |f.rows| && 0 <= k < |pos| ==> CellAt(g.rows[i], k) == CellAt(f.rows[i], pos[k]))
  }

  /** Every column whose label is not marked survives the drop, cells and
      all, and the survivors keep their relative order. */
  lemma DropWhereKeepsUnmarked(f: Frame, p: string -> bool, j: nat)
    requires j < |f.columns| && !p(f.columns[j])
    ensures var g := DropWhere(f, p);
            exists k :: 0 <= k < |g.columns| && g.columns[k] == f.columns[j]
              && forall i :: 0 <= i < |f.rows| ==> CellAt(g.rows[i], k) == CellAt(f.rows[i], j)
    ensures var pos := PositionsWhere(f.columns, l => !p(l));
            forall a, b :: 0 <= a < b < |pos| ==> pos[a] < pos[b]
  {
    var pos := PositionsWhere(f.columns, x => !p(x));
    PositionsWhereCovers(f.columns, x => !p(x), j);
    var k :| 0 <= k < |pos| && pos[k] == j;
    assert DropWhere(f, p).columns[k] == f.columns[j];
  }

  /** When the first m labels satisfy p, the positions start 0, 1, …, m - 1. */
  lemma {:induction false} PositionsWherePrefix(labels: seq<string>, p: string -> bool, m: nat)
    requires m <= |labels| && forall j :: 0 <= j < m ==> p(labels[j])
    ensures |PositionsWhere(labels, p)| >= m
    ensures forall j :: 0 <= j < m ==> PositionsWhere(labels, p)[j] == j
  {
    if |labels| > 0 {
      var n := |labels| - 1;
      var m' := if m == |labels| then n else m;
      var rest := PositionsWhere(labels[..n], p);
      assert forall j :: 0 <= j < m' ==> labels[..n][j] == labels[j];
      PositionsWherePrefix(labels[..n], p, m');
      PositionsWhereSnoc(labels, p);
      var pos := PositionsWhere(labels, p);
      if m == |labels| {
        assert p(labels[n]) && pos == rest + [n] && |rest| == n;
      }
      assert |pos| >= m;
      forall j | 0 <= j < m
        ensures pos[j] == j
      {
        if j < m' {
          assert pos[j] == rest[j];
        }
      }
    }
  }

  /** Every label satisfying p has its position listed. */
  lemma {:induction false} PositionsWhereCovers(labels: seq<string>, p: string -> bool, j: nat)
    requires j < |labels| && p(labels[j])
    ensures j in PositionsWhere(labels, p)
  {
    var n := |labels| - 1;
    if j < n {
      assert labels[..n][j] == labels[j];
      PositionsWhereCovers(labels[..n], p, j);
    }
  }

  /** The positions of a non-empty label list: those of all but the last
      label, then the last one if it qualifies. */
  lemma PositionsWhereSnoc(labels: seq<string>, p: string -> bool)
    requires |labels| > 0
    ensures var n := |labels| - 1;
            var rest := PositionsWhere(labels[..n], p);
            PositionsWhere(labels, p) == if p(labels[n]) then rest + [n] else rest
  {
  }

  /** Dropping columns none of the first m of which satisfy p keeps those m
      columns in front, cells and all; the columns kept behind them come
      from behind them, so a row missing every cell there still does. */
  lemma DropKeepsPrefix(f: Frame, p: string -> bool, m: nat)
    requires WellFormed(f) && m <= |f.columns| && forall j :: 0 <= j < m ==> !p(f.columns[j])
    ensures var g := DropWhere(f, p);
            && |g.columns| >= m
            && (forall j :: 0 <= j < m ==> g.columns[j] == f.columns[j])
            && (forall i, j :: 0 <= i < |f.rows| && 0 <= j < m ==> g.rows[i][j] == f.rows[i][j])
            && (forall i, k :: 0 <= i < |f.rows| && m <= k < |g.columns| ==>
                  (forall j :: m <= j < |f.columns| ==> f.rows[i][j] == Null) ==> g.rows[i][k] == Null)
  {
    var q := (l: string) => !p(l);
    PositionsWherePrefix(f.columns, q, m);
    var pos := PositionsWhere(f.columns, q);
    assert forall k :: m <= k < |pos| ==> pos[k] >= m by {
      if m > 0 {
        assert pos[m - 1] == m - 1;
      }
    }
  }

  /** The values of the first column carrying the label (`df[label]`). */
  function Column(f: Frame, l: string): (v: seq<Cell>)
    requires l in f.columns
    ensures |v| == |f.rows|
    ensures forall i :: 0 <= i < |f.rows| ==> v[i] == CellAt(f.rows[i], IndexOf(f.columns, l))
  {
    var j := IndexOf(f.columns, l);
    seq(|f.rows|, i requires 0 <= i < |f.rows| => CellAt(f.rows[i], j))
  }

  /** One row after `df[l] = v`: every cell under label l becomes x. */
  function SetCells(labels: seq<string>, row: Row, l: string, x: Cell): (r: Row)
    requires |row| == |labels|
    ensures |r| == |row|
    ensures forall k :: 0 <= k < |row| ==> r[k] == (if labels[k] == l then x else row[k])
  {
    seq(|row|, k requires 0 <= k < |row| => if labels[k] == l then x else row[k])
  }

  /** `df[l] = v`: overwrites the column(s) labelled l, or appends a new
      column l at the right end when there is none. */
  function SetColumn(f: Frame, l: string, v: seq<Cell>): (g: Frame)
    requires WellFormed(f) && |v| == |f.rows|
    ensures WellFormed(g) && |g.rows| == |f.rows| && l in g.columns
    ensures l in f.columns ==> g.columns == f.columns
    ensures l !in f.columns ==> g.columns == f.columns + [l]
    ensures l in f.columns ==> forall i :: 0 <= i < |f.rows| ==> g.rows[i] == SetCells(f.columns, f.rows[i], l, v[i])
    ensures l !in f.columns ==> forall i :: 0 <= i < |f.rows| ==> g.rows[i] == f.rows[i] + [v[i]]
    ensures forall i :: 0 <= i < |f.rows| ==> CellAt(g.rows[i], IndexOf(g.columns, l)) == v[i]
    ensures forall i, k :: 0 <= i < |f.rows| && 0 <= k < |f.columns| && f.columns[k] != l ==>
              g.rows[i][k] == f.rows[i][k]
  {
    if l in f.columns then Overwrite(f, l, v) else Append(f, l, v)
  }

  /** `df[l] = v` for a label the frame has. */
  function Overwrite(f: Frame, l: string, v: seq<Cell>): (g: Frame)
    requires WellFormed(f) && |v| == |f.rows| && l in f.columns
    ensures WellFormed(g) && g.columns == f.columns && |g.rows| == |f.rows|
    ensures forall i :: 0 <= i < |f.rows| ==> g.rows[i] == SetCells(f.columns, f.rows[i], l, v[i])
  {
    var rows := seq(|f.rows|, i requires 0 <= i < |f.rows| => SetCells(f.columns, f.rows[i], l, v[i]));
    assert forall i :: 0 <= i < |rows| ==> |rows[i]| == |f.columns|;
    Frame(f.columns, rows)
  }

  /** `df[l] = v` for a label the frame lacks: a new rightmost column. */
  function Append(f: Frame, l: string, v: seq<Cell>): (g: Frame)
    requires WellFormed(f) && |v| == |f.rows| && l !in f.columns
    ensures WellFormed(g) && g.columns == f.columns + [l] && |g.rows| == |f.rows|
    ensures forall i :: 0 <= i < |f.rows| ==> g.rows[i] == f.rows[i] + [v[i]]
  {
    var rows := seq(|f.rows|, i requires 0 <= i < |f.rows| => f.rows[i] + [v[i]]);
    assert forall i :: 0 <= i < |rows| ==> |rows[i]| == |f.columns| + 1;
    Frame(f.columns + [l], rows)
  }

  /** `df[l] = df[l].fillna(x)` on one row: missing cells under label l become the text x. */
  function FillCells(labels: seq<string>, row: Row, l: string, x: string): (r: Row)
    requires |row| == |labels|
    ensures |r| == |row|
    ensures forall k :: 0 <= k < |row| ==> r[k] == (if labels[k] == l && row[k] == Null then Str(x) else row[k])
  {
    seq(|row|, k requires 0 <= k < |row| => if labels[k] == l && row[k] == Null then Str(x) else row[k])
  }

  /** `df[l] = df[l].fillna(x)` for every column labelled l. */
  function FillNull(f: Frame, l: string, x: string): (g: Frame)
    requires WellFormed(f)
    ensures WellFormed(g) && g.columns == f.columns && |g.rows| == |f.rows|
    ensures forall i, k :: 0 <= i < |f.rows| && 0 <= k < |f.columns| ==>
              g.rows[i][k] == (if f.columns[k] == l && f.rows[i][k] == Null then Str(x) else f.rows[i][k])
  {
    Frame(f.columns, seq(|f.rows|, i requires 0 <= i < |f.rows| => FillCells(f.columns, f.rows[i], l, x)))
  }

  /** A missing cell replaced by the text x; any other cell kept. */
  function Filled(c: Cell, x: string): (d: Cell)
    ensures d != Null
    ensures c != Null ==> d == c
  {
    if c == Null then Str(x) else c
  }

  /** `df[c] = df[c].fillna(x)` for each label c of the list the frame has:
      exactly the missing cells under those labels become the text x. */
  function FillAll(f: Frame, labels: seq<string>, x: string): (g: Frame)
    requires WellFormed(f)
    ensures WellFormed(g) && g.columns == f.columns && |g.rows| == |f.rows|
    ensures forall i, k :: 0 <= i < |f.rows| && 0 <= k < |f.columns| ==>
              g.rows[i][k] == (if f.columns[k] in labels then Filled(f.rows[i][k], x) else f.rows[i][k])
    ensures forall i, k :: 0 <= i < |g.rows| && 0 <= k < |g.columns| && g.columns[k] in labels ==> g.rows[i][k] != Null
  {
    if |labels| == 0 then f
    else
      var n := |labels| - 1;
      var g := FillAll(f, labels[..n], x);
      assert forall l :: l in labels <==> l in labels[..n] || l == labels[n] by {
        assert labels == labels[..n] + [labels[n]];
      }
      FillNull(g, labels[n], x)
  }

  /** A frame g that starts with the columns and cells of a frame l (as a
      left join's output does), none of whose labels satisfies p, keeps
      them in front through dropping the columns satisfying p and filling
      the listed labels' missing cells with x. */
  lemma DropFillKeepsPrefix(g: Frame, l: Frame, p: string -> bool, labels: seq<string>, x: string)
    requires WellFormed(g) && WellFormed(l) && |g.rows| == |l.rows| && |g.columns| >= |l.columns|
    requires forall j :: 0 <= j < |l.columns| ==> g.columns[j] == l.columns[j] && !p(l.columns[j])
    requires forall i, j :: 0 <= i < |l.rows| && 0 <= j < |l.columns| ==> CellAt(g.rows[i], j) == CellAt(l.rows[i], j)
    ensures var out := FillAll(DropWhere(g, p), labels, x);
            && |out.rows| == |l.rows| && |out.columns| >= |l.columns|
            && (forall j :: 0 <= j < |l.columns| ==> out.columns[j] == l.columns[j])
            && (forall i, j :: 0 <= i < |l.rows| && 0 <= j < |l.columns| ==>
                  CellAt(out.rows[i], j) == (if l.columns[j] in labels then Filled(CellAt(l.rows[i], j), x) else CellAt(l.rows[i], j)))
  {
    DropKeepsPrefix(g, p, |l.columns|);
    var d := DropWhere(g, p);
    var out := FillAll(d, labels, x);
    forall i, j | 0 <= i < |l.rows| && 0 <= j < |l.columns|
      ensures CellAt(out.rows[i], j) == (if l.columns[j] in labels then Filled(CellAt(l.rows[i], j), x) else CellAt(l.rows[i], j))
    {
      assert d.rows[i] in d.rows && g.rows[i] in g.rows;
      assert d.rows[i][j] == g.rows[i][j];
    }
  }

  /** In the same setting, a row missing every cell behind the first m
      columns reads x under every listed label behind them after the drop
      and fill, and is missing every other cell there. */
  lemma DropFillMissingTail(g: Frame, m: nat, p: string -> bool, labels: seq<string>, x: string, i: nat)
    requires WellFormed(g) && m <= |g.columns| && i < |g.rows|
    requires forall j :: 0 <= j < m ==> !p(g.columns[j])
    requires forall j :: m <= j < |g.columns| ==> g.rows[i][j] == Null
    ensures var out := FillAll(DropWhere(g, p), labels, x);
            i < |out.rows| &&
            forall k :: m <= k < |out.columns| ==>
              CellAt(out.rows[i], k) == (if out.columns[k] in labels then Str(x) else Null)
  {
    DropKeepsPrefix(g, p, m);
    var d := DropWhere(g, p);
    var out := FillAll(d, labels, x);
    forall k | m <= k < |out.columns|
      ensures CellAt(out.rows[i], k) == (if out.columns[k] in labels then Str(x) else Null)
    {
      assert d.rows[i] in d.rows;
      assert d.rows[i][k] == Null;
    }
  }

  /** A label that p does not hold of survives the drop. */
  lemma DropKeeps(f: Frame, p: string -> bool, l: string)
    requires l in f.columns && !p(l)
    ensures l in DropWhere(f, p).columns
  {
    var j := IndexOf(f.columns, l);
    var pos := PositionsWhere(f.columns, x => !p(x));
    PositionsWhereCovers(f.columns, x => !p(x), j);
    var k :| 0 <= k < |pos| && pos[k] == j;
    assert DropWhere(f, p).columns[k] == l;
  }

  /** Index of the first label satisfying p. */
  function FirstWhere(labels: seq<string>, p: string -> bool): (r: Option<nat>)
    ensures r.Some? ==> r.value < |labels| && p(labels[r.value])
    ensures r.Some? ==> forall j :: 0 <= j < r.value ==> !p(labels[j])
    ensures r.None? <==> forall j :: 0 <= j < |labels| ==> !p(labels[j])
  {
    if |labels| == 0 then None
    else if p(labels[0]) then Some(0)
    else match FirstWhere(labels[1..], p)
      case None => None
      case Some(k) => Some(k + 1)
  }

  /** A row missing every cell behind the first m columns reads x under
      every listed label there once filled, and is missing every other
      cell there. */
  lemma FillMissingTail(g: Frame, m: nat, labels: seq<string>, x: string, i: nat)
    requires WellFormed(g) && m <= |g.columns| && i < |g.rows|
    requires forall j :: m <= j < |g.columns| ==> g.rows[i][j] == Null
    ensures var out := FillAll(g, labels, x);
            i < |out.rows| &&
            forall k :: m <= k < |out.columns| ==>
              CellAt(out.rows[i], k) == (if out.columns[k] in labels then Str(x) else Null)
  {
  }

  /** Filling keeps the cells of a frame l that g starts with, except that a
      listed label's missing cells read x. */
  lemma FillKeepsPrefix(g: Frame, l: Frame, labels: seq<string>, x: string)
    requires WellFormed(g) && WellFormed(l) && |g.rows| == |l.rows| && |g.columns| >= |l.columns|
    requires forall i, j :: 0 <= i < |l.rows| && 0 <= j < |l.columns| ==> CellAt(g.rows[i], j) == CellAt(l.rows[i], j)
    ensures var out := FillAll(g, labels, x);
            |out.rows| == |l.rows| &&
            forall i, j :: 0 <= i < |l.rows| && 0 <= j < |l.columns| ==>
              CellAt(out.rows[i], j) == (if g.columns[j] in labels then Filled(CellAt(l.rows[i], j), x) else CellAt(l.rows[i], j))
  {
    var out := FillAll(g, labels, x);
    forall i, j | 0 <= i < |l.rows| && 0 <= j < |l.columns|
      ensures CellAt(out.rows[i], j) == (if g.columns[j] in labels then Filled(CellAt(l.rows[i], j), x) else CellAt(l.rows[i], j))
    {
      assert g.rows[i] in g.rows && l.rows[i] in l.rows;
    }
  }

  /** Position i holds the first occurrence of its value. */
  predicate IsFirst(keys: seq<Cell>, i: nat)
    requires i < |keys|
  {
    forall j :: 0 <= j < i ==> keys[j] != keys[i]
  }

  /** Positions of the first occurrence of every value, in order
      (`drop_duplicates(keep='first')` on one key). */
  function KeepFirst(keys: seq<Cell>): (idx: seq<nat>)
    ensures |idx| <= |keys|
    ensures forall k :: 0 <= k < |idx| ==> idx[k] < |keys|
    ensures forall a, b :: 0 <= a < b < |idx| ==> idx[a] < idx[b]
    ensures forall i :: 0 <= i < |keys| ==> (i in idx <==> IsFirst(keys, i))
    ensures forall k :: 0 <= k < |idx| ==> IsFirst(keys, idx[k])
  {
    if |keys| == 0 then []
    else
      var n := |keys| - 1;
      var p := KeepFirst(keys[..n]);
      assert forall i :: 0 <= i < n ==> (IsFirst(keys[..n], i) <==> IsFirst(keys, i));
      if IsFirst(keys, n) then p + [n] else p
  }

  /** The kept positions carry pairwise different values. */
  lemma KeepFirstDistinct(keys: seq<Cell>)
    ensures forall a, b :: 0 <= a < b < |KeepFirst(keys)| ==> keys[KeepFirst(keys)[a]] != keys[KeepFirst(keys)[b]]
  {
    var idx := KeepFirst(keys);
    forall a, b | 0 <= a < b < |idx|
      ensures keys[idx[a]] != keys[idx[b]]
    {
      assert idx[b] in idx;
    }
  }

  /** Two different values both survive deduplication. */
  lemma KeepFirstPair(a: Cell, b: Cell)
    requires a != b
    ensures KeepFirst([a, b]) == [0, 1]
  {
    assert [a, b][..1] == [a];
    assert IsFirst([a, b], 1);
  }

  /** The position of the first occurrence of v. */
  function FirstIndex(keys: seq<Cell>, v: Cell): (j: nat)
    requires v in keys
    ensures j < |keys| && keys[j] == v && IsFirst(keys, j)
  {
    var n := |keys| - 1;
    if v in keys[..n] then
      var j := FirstIndex(keys[..n], v);
      assert IsFirst(keys[..n], j);
      j
    else n
  }

  /** Deduplication loses no value of the key: the first occurrence of every
      value is kept. */
  lemma KeepFirstCovers(keys: seq<Cell>)
    ensures forall i :: 0 <= i < |keys| ==> FirstIndex(keys, keys[i]) in KeepFirst(keys)
  {
  }

  /** `df.drop_duplicates(l)`: the first row for every value under label l. */
  function DedupOn(f: Frame, l: string): (g: Frame)
    requires WellFormed(f) && l in f.columns
    ensures WellFormed(g) && g.columns == f.columns && |g.rows| <= |f.rows|
    ensures var j := IndexOf(f.columns, l);
            forall a, b :: 0 <= a < b < |g.rows| ==> g.rows[a][j] != g.rows[b][j]
    ensures var idx := KeepFirst(Column(f, l));
            |g.rows| == |idx| && forall k :: 0 <= k < |idx| ==> g.rows[k] == f.rows[idx[k]]
  {
    DedupRows(f, l);
    Frame(f.columns, At(f.rows, KeepFirst(Column(f, l))))
  }

  /** The rows deduplication keeps are rows of the table, and no two of them
      share a value under label l. */
  lemma DedupRows(f: Frame, l: string)
    requires WellFormed(f) && l in f.columns
    ensures var rows := At(f.rows, KeepFirst(Column(f, l)));
            var j := IndexOf(f.columns, l);
            && |rows| <= |f.rows|
            && (forall k :: 0 <= k < |rows| ==> |rows[k]| == |f.columns|)
            && forall a, b :: 0 <= a < b < |rows| ==> rows[a][j] != rows[b][j]
  {
    var idx := KeepFirst(Column(f, l));
    KeepFirstDistinct(Column(f, l));
    var rows := At(f.rows, idx);
    assert forall k :: 0 <= k < |rows| ==> rows[k] in f.rows;
    var j := IndexOf(f.columns, l);
    assert forall k :: 0 <= k < |rows| ==> rows[k][j] == Column(f, l)[idx[k]];
    forall a, b | 0 <= a < b < |rows|
      ensures rows[a][j] != rows[b][j]
    {
      assert Column(f, l)[idx[a]] != Column(f, l)[idx[b]];
    }
  }

  /** A sequence without its element at position k. */
  function Without<T>(s: seq<T>, k: nat): (r: seq<T>)
    requires k < |s|
    ensures |r| == |s| - 1
    ensures forall j :: 0 <= j < k ==> r[j] == s[j]
    ensures forall j :: k <= j < |r| ==> r[j] == s[j + 1]
  {
    s[..k] + s[k + 1..]
  }

  /** `astype(str).str.strip()` on one cell: always text, never missing. */
  function Stripped(c: Cell): (r: Cell)
    ensures r.Str? && r.s == Strip(Render(c))
  {
    Str(Strip(Render(c)))
  }

  /** `df[dst] = df[src].astype(str).str.strip()`. */
  function StripInto(f: Frame, src: string, dst: string): (g: Frame)
    requires WellFormed(f) && src in f.columns
    ensures WellFormed(g) && |g.rows| == |f.rows| && dst in g.columns
    ensures dst in f.columns ==> g.columns == f.columns
    ensures dst !in f.columns ==> g.columns == f.columns + [dst]
    ensures dst in f.columns ==> forall i :: 0 <= i < |f.rows| ==> g.rows[i] == SetCells(f.columns, f.rows[i], dst, Stripped(Column(f, src)[i]))
    ensures dst !in f.columns ==> forall i :: 0 <= i < |f.rows| ==> g.rows[i] == f.rows[i] + [Stripped(Column(f, src)[i])]
    ensures forall i :: 0 <= i < |f.rows| ==> CellAt(g.rows[i], IndexOf(g.columns, dst)) == Stripped(Column(f, src)[i])
    ensures forall i, k :: 0 <= i < |f.rows| && 0 <= k < |f.columns| && f.columns[k] != dst ==> g.rows[i][k] == f.rows[i][k]
  {
    var v := Column(f, src);
    SetColumn(f, dst, seq(|f.rows|, i requires 0 <= i < |f.rows| => Stripped(v[i])))
  }
}
