/** `pd.merge(left, right, on=key, how='left', suffixes=(sl, sr))` on the
    positional frames: every left row, in order, followed by the non-key
    cells of each right row with the same key, or by missing cells when no
    right row has it. */
module Join {

  import opened Wrappers
  import opened Table

  /** Why a merge cannot run: its key label is missing from one side or
      carried by several columns of it (pandas raises for both). */
  datatype JoinError = BadKey(key: string)

  /** The right-hand rows whose key cell equals v, in their order. */
  function Matches(rows: seq<Row>, kc: nat, v: Cell): (ms: seq<Row>)
    ensures |ms| <= |rows|
    ensures forall k :: 0 <= k < |ms| ==> CellAt(ms[k], kc) == v
    ensures forall w :: RowsOfWidth(rows, w) ==> RowsOfWidth(ms, w)
  {
    if |rows| == 0 then []
    else
      var n := |rows| - 1;
      var rest := Matches(rows[..n], kc, v);
      assert forall w :: RowsOfWidth(rows, w) ==> RowsOfWidth(rows[..n], w);
      if CellAt(rows[n], kc) == v then rest + [rows[n]] else rest
  }

  /** Every match is one of the rows. */
  lemma {:induction false} MatchesFrom(rows: seq<Row>, kc: nat, v: Cell, k: nat)
    requires k < |Matches(rows, kc, v)|
    ensures Matches(rows, kc, v)[k] in rows
  {
    var n := |rows| - 1;
    var rest := Matches(rows[..n], kc, v);
    if k < |rest| {
      MatchesFrom(rows[..n], kc, v, k);
    }
  }

  /** Every row with key cell v is among its matches. */
  lemma {:induction false} MatchesCover(rows: seq<Row>, kc: nat, v: Cell, i: nat)
    requires i < |rows| && CellAt(rows[i], kc) == v
    ensures rows[i] in Matches(rows, kc, v)
  {
    var n := |rows| - 1;
    if i < n {
      assert rows[..n][i] == rows[i];
      MatchesCover(rows[..n], kc, v, i);
    }
  }

  /** No two rows share a key cell. */
  predicate UniqueKeys(rows: seq<Row>, kc: nat) {
    forall a, b :: 0 <= a < b < |rows| ==> CellAt(rows[a], kc) != CellAt(rows[b], kc)
  }

  /** With unique keys a key value matches at most one row. */
  lemma {:induction false} MatchesUnique(rows: seq<Row>, kc: nat, v: Cell)
    requires UniqueKeys(rows, kc)
    ensures |Matches(rows, kc, v)| <= 1
  {
    if |rows| > 0 {
      var n := |rows| - 1;
      assert UniqueKeys(rows[..n], kc) by {
        assert forall i :: 0 <= i < n ==> rows[..n][i] == rows[i];
      }
      MatchesUnique(rows[..n], kc, v);
      if CellAt(rows[n], kc) == v {
        MatchesNone(rows[..n], kc, v);
      }
    }
  }

  /** A key value no row carries matches nothing. */
  lemma {:induction false} MatchesNone(rows: seq<Row>, kc: nat, v: Cell)
    requires forall i :: 0 <= i < |rows| ==> CellAt(rows[i], kc) != v
    ensures Matches(rows, kc, v) == []
  {
    if |rows| > 0 {
      MatchesNone(rows[..|rows| - 1], kc, v);
    }
  }

  /** The output rows one left row gives: one per matching right row, its
      key cell left out, or a single row padded with missing cells. */
  function JoinRow(lrow: Row, ms: seq<Row>, kc: nat, w: nat): (out: seq<Row>)
    requires RowsOfWidth(ms, w + 1) && kc <= w
    ensures |out| == if |ms| == 0 then 1 else |ms|
    ensures |ms| == 0 ==> out == [lrow + Nulls(w)]
    ensures forall k :: 0 <= k < |ms| ==> out[k] == lrow + Without(ms[k], kc)
    ensures forall k :: 0 <= k < |out| ==> |out[k]| == |lrow| + w && out[k][..|lrow|] == lrow
  {
    if |ms| == 0 then [lrow + Nulls(w)]
    else
      var out := seq(|ms|, k requires 0 <= k < |ms| => lrow + Without(ms[k], kc));
      assert forall k :: 0 <= k < |ms| ==> (lrow + Without(ms[k], kc))[..|lrow|] == lrow;
      out
  }

  /** The blocks of a sequence of blocks laid end to end. */
  function Flatten(bs: seq<seq<Row>>): seq<Row> {
    if |bs| == 0 then [] else Flatten(bs[..|bs| - 1]) + bs[|bs| - 1]
  }

  /** Non-empty blocks give at least one row each. */
  lemma {:induction false} FlattenLength(bs: seq<seq<Row>>)
    requires forall i :: 0 <= i < |bs| ==> |bs[i]| >= 1
    ensures |Flatten(bs)| >= |bs|
  {
    if |bs| > 0 {
      FlattenLength(bs[..|bs| - 1]);
    }
  }

  /** Single-row blocks give their rows, one for one and in order. */
  lemma {:induction false} FlattenSingletons(bs: seq<seq<Row>>)
    requires forall i :: 0 <= i < |bs| ==> |bs[i]| == 1
    ensures |Flatten(bs)| == |bs|
    ensures forall i :: 0 <= i < |bs| ==> Flatten(bs)[i] == bs[i][0]
  {
    if |bs| > 0 {
      var n := |bs| - 1;
      FlattenSingletons(bs[..n]);
      assert forall i :: 0 <= i < n ==> bs[..n][i] == bs[i];
    }
  }

  /** Every row of every block is in the flattened sequence. */
  lemma {:induction false} FlattenContains(bs: seq<seq<Row>>, i: nat, o: Row)
    requires i < |bs| && o in bs[i]
    ensures o in Flatten(bs)
  {
    var n := |bs| - 1;
    if i < n {
      assert bs[..n][i] == bs[i];
      FlattenContains(bs[..n], i, o);
    }
  }

  /** Every flattened row has the width all the blocks' rows have. */
  lemma {:induction false} FlattenWidth(bs: seq<seq<Row>>, w: nat)
    requires forall i, k :: 0 <= i < |bs| && 0 <= k < |bs[i]| ==> |bs[i][k]| == w
    ensures forall o | o in Flatten(bs) :: |o| == w
  {
    if |bs| > 0 {
      var n := |bs| - 1;
      assert forall i :: 0 <= i < n ==> bs[..n][i] == bs[i];
      FlattenWidth(bs[..n], w);
    }
  }

  /** The labels of a merge: the left labels, those also carried by a
      non-key right column suffixed with sl; then the non-key right labels,
      those also carried by a left column suffixed with sr. */
  function JoinLabels(lcols: seq<string>, rcols: seq<string>, key: string, rk: nat, sl: string, sr: string): (r: seq<string>)
    requires rk < |rcols|
    ensures |r| == |lcols| + |rcols| - 1
    ensures forall k :: 0 <= k < |lcols| ==>
              r[k] == (if lcols[k] != key && lcols[k] in Without(rcols, rk) then lcols[k] + sl else lcols[k])
    ensures forall k :: 0 <= k < |rcols| - 1 ==>
              r[|lcols| + k] == (if Without(rcols, rk)[k] in lcols then Without(rcols, rk)[k] + sr else Without(rcols, rk)[k])
  {
    var rest := Without(rcols, rk);
    seq(|lcols|, k requires 0 <= k < |lcols| => if lcols[k] != key && lcols[k] in rest then lcols[k] + sl else lcols[k])
    + seq(|rest|, k requires 0 <= k < |rest| => if rest[k] in lcols then rest[k] + sr else rest[k])
  }

  /** The blocks of output rows, one per left row. */
  function Blocks(l: Frame, lk: nat, r: Frame, rk: nat): (bs: seq<seq<Row>>)
    requires WellFormed(r) && rk < |r.columns|
    ensures |bs| == |l.rows|
    ensures forall i :: 0 <= i < |l.rows| ==>
              bs[i] == JoinRow(l.rows[i], Matches(r.rows, rk, CellAt(l.rows[i], lk)), rk, |r.columns| - 1)
  {
    var w := |r.columns| - 1;
    seq(|l.rows|, i requires 0 <= i < |l.rows| => JoinRow(l.rows[i], Matches(r.rows, rk, CellAt(l.rows[i], lk)), rk, w))
  }

  /** The key is carried by exactly one column on each side. */
  predicate Joinable(l: Frame, r: Frame, key: string) {
    Count(l.columns, key) == 1 && Count(r.columns, key) == 1
  }

  /** The merge. It fails when the key is not carried by exactly one column
      on each side. Otherwise the output has the joined labels and, for each
      left row in order, its block of rows: never fewer rows than the left. */
  function LeftJoin(l: Frame, r: Frame, key: string, sl: string, sr: string): (res: Result<Frame, JoinError>)
    requires WellFormed(l) && WellFormed(r)
    ensures res.Failure? <==> Count(l.columns, key) != 1 || Count(r.columns, key) != 1
    ensures res.Success? ==>
              && WellFormed(res.value)
              && res.value.columns == JoinLabels(l.columns, r.columns, key, IndexOf(r.columns, key), sl, sr)
              && res.value.rows == Flatten(Blocks(l, IndexOf(l.columns, key), r, IndexOf(r.columns, key)))
              && |res.value.rows| >= |l.rows|
  {
    if Count(l.columns, key) != 1 || Count(r.columns, key) != 1 then Failure(BadKey(key))
    else
      var lk := IndexOf(l.columns, key);
      var rk := IndexOf(r.columns, key);
      var bs := Blocks(l, lk, r, rk);
      FlattenLength(bs);
      FlattenWidth(bs, |l.columns| + |r.columns| - 1);
      Success(Frame(JoinLabels(l.columns, r.columns, key, rk, sl, sr), Flatten(bs)))
  }

  /** The first output row left row i gives. */
  function FirstOut(l: Frame, r: Frame, key: string, i: nat): Row
    requires WellFormed(r) && Joinable(l, r, key) && i < |l.rows|
  {
    Blocks(l, IndexOf(l.columns, key), r, IndexOf(r.columns, key))[i][0]
  }

  /** Every left row appears in the output: its first output row starts
      with it. */
  lemma LeftRowsKept(l: Frame, r: Frame, key: string, sl: string, sr: string, i: nat)
    requires WellFormed(l) && WellFormed(r) && Joinable(l, r, key)
    requires i < |l.rows|
    ensures FirstOut(l, r, key, i) in LeftJoin(l, r, key, sl, sr).value.rows
    ensures FirstOut(l, r, key, i)[..|l.columns|] == l.rows[i]
  {
    var bs := Blocks(l, IndexOf(l.columns, key), r, IndexOf(r.columns, key));
    FlattenContains(bs, i, bs[i][0]);
  }

  /** A left row whose key no right row carries is followed by missing cells. */
  lemma UnmatchedPadded(l: Frame, r: Frame, key: string, i: nat)
    requires WellFormed(l) && WellFormed(r) && Joinable(l, r, key)
    requires i < |l.rows|
    requires forall j :: 0 <= j < |r.rows| ==> CellAt(r.rows[j], IndexOf(r.columns, key)) != CellAt(l.rows[i], IndexOf(l.columns, key))
    ensures FirstOut(l, r, key, i) == l.rows[i] + Nulls(|r.columns| - 1)
  {
    var lk := IndexOf(l.columns, key);
    var rk := IndexOf(r.columns, key);
    var v := CellAt(l.rows[i], lk);
    MatchesNone(r.rows, rk, v);
    UnmatchedBlock(l, lk, r, rk, i);
  }

  /** The block of a left row nothing matches: the row padded with missing cells. */
  lemma UnmatchedBlock(l: Frame, lk: nat, r: Frame, rk: nat, i: nat)
    requires WellFormed(r) && rk < |r.columns| && i < |l.rows|
    requires Matches(r.rows, rk, CellAt(l.rows[i], lk)) == []
    ensures Blocks(l, lk, r, rk)[i][0] == l.rows[i] + Nulls(|r.columns| - 1)
  {
    BlockAt(l, lk, r, rk, i);
  }

  lemma BlockAt(l: Frame, lk: nat, r: Frame, rk: nat, i: nat)
    requires WellFormed(r) && rk < |r.columns| && i < |l.rows|
    ensures Blocks(l, lk, r, rk)[i] == JoinRow(l.rows[i], Matches(r.rows, rk, CellAt(l.rows[i], lk)), rk, |r.columns| - 1)
  {
  }

  /** With unique keys on the right, the output has exactly one row per left
      row: the left row followed by its match's non-key cells, or by missing
      cells when nothing matches. */
  lemma UniqueRightKeys(l: Frame, r: Frame, key: string, sl: string, sr: string)
    requires WellFormed(l) && WellFormed(r) && Joinable(l, r, key)
    requires UniqueKeys(r.rows, IndexOf(r.columns, key))
    ensures var out := LeftJoin(l, r, key, sl, sr).value.rows;
            var lk := IndexOf(l.columns, key);
            var rk := IndexOf(r.columns, key);
            |out| == |l.rows| &&
            forall i :: 0 <= i < |l.rows| ==>
              out[i] == l.rows[i] + RightCells(r, rk, CellAt(l.rows[i], lk))
  {
    var lk := IndexOf(l.columns, key);
    var rk := IndexOf(r.columns, key);
    var bs := Blocks(l, lk, r, rk);
    forall i | 0 <= i < |l.rows|
      ensures |bs[i]| == 1 && bs[i][0] == l.rows[i] + RightCells(r, rk, CellAt(l.rows[i], lk))
    {
      MatchesUnique(r.rows, rk, CellAt(l.rows[i], lk));
    }
    FlattenSingletons(bs);
  }

  /** The right-hand cells a left row with key v gets when right keys are
      unique: the match's non-key cells, or missing cells. */
  function RightCells(r: Frame, rk: nat, v: Cell): (c: Row)
    requires WellFormed(r) && rk < |r.columns|
    ensures |c| == |r.columns| - 1
    ensures (forall j :: 0 <= j < |r.rows| ==> CellAt(r.rows[j], rk) != v) ==> c == Nulls(|r.columns| - 1)
  {
    var ms := Matches(r.rows, rk, v);
    assert RowsOfWidth(r.rows, |r.columns|);
    if |ms| == 0 then Nulls(|r.columns| - 1)
    else
      MatchesFrom(r.rows, rk, v, 0);
      Without(ms[0], rk)
  }

  /** With an empty left suffix the left labels come out unchanged, in front. */
  lemma LeftLabelsKept(l: Frame, r: Frame, key: string, sr: string)
    requires WellFormed(l) && WellFormed(r) && Joinable(l, r, key)
    ensures forall j :: 0 <= j < |l.columns| ==> LeftJoin(l, r, key, "", sr).value.columns[j] == l.columns[j]
  {
    forall j | 0 <= j < |l.columns|
      ensures LeftJoin(l, r, key, "", sr).value.columns[j] == l.columns[j]
    {
      assert l.columns[j] + "" == l.columns[j];
    }
  }

  /** With unique keys on the right, output row i starts with left row i,
      cell for cell. */
  lemma LeftCellsKept(l: Frame, r: Frame, key: string, sl: string, sr: string)
    requires WellFormed(l) && WellFormed(r) && Joinable(l, r, key)
    requires UniqueKeys(r.rows, IndexOf(r.columns, key))
    ensures var out := LeftJoin(l, r, key, sl, sr).value;
            |out.rows| == |l.rows| &&
            forall i, j :: 0 <= i < |l.rows| && 0 <= j < |l.columns| ==> CellAt(out.rows[i], j) == CellAt(l.rows[i], j)
  {
    UniqueRightKeys(l, r, key, sl, sr);
  }

  /** With unique keys on the right, a left row whose key no right row
      carries gets a missing cell in every right-hand column. */
  lemma UnmatchedCellsMissing(l: Frame, r: Frame, key: string, sl: string, sr: string, i: nat)
    requires WellFormed(l) && WellFormed(r) && Joinable(l, r, key)
    requires UniqueKeys(r.rows, IndexOf(r.columns, key))
    requires i < |l.rows|
    requires forall j :: 0 <= j < |r.rows| ==> CellAt(r.rows[j], IndexOf(r.columns, key)) != CellAt(l.rows[i], IndexOf(l.columns, key))
    ensures var out := LeftJoin(l, r, key, sl, sr).value;
            i < |out.rows| &&
            forall j :: |l.columns| <= j < |out.columns| ==> out.rows[i][j] == Null
  {
    UniqueRightKeys(l, r, key, sl, sr);
  }

  /** The key column comes out of the merge under its own label. */
  lemma JoinKeepsKey(l: Frame, r: Frame, key: string, sl: string, sr: string)
    requires WellFormed(l) && WellFormed(r) && Joinable(l, r, key)
    ensures key in LeftJoin(l, r, key, sl, sr).value.columns
  {
    var k := IndexOf(l.columns, key);
    assert LeftJoin(l, r, key, sl, sr).value.columns[k] == key;
  }

  /** Deduplicating on a column leaves distinct keys in it. */
  lemma DedupUnique(f: Frame, l: string)
    requires WellFormed(f) && l in f.columns
    ensures UniqueKeys(DedupOn(f, l).rows, IndexOf(DedupOn(f, l).columns, l))
  {
    var g := DedupOn(f, l);
    var j := IndexOf(f.columns, l);
    forall a, b | 0 <= a < b < |g.rows|
      ensures CellAt(g.rows[a], j) != CellAt(g.rows[b], j)
    {
      assert g.rows[a] in g.rows && g.rows[b] in g.rows;
    }
  }

  /** Frame out has a row per row of l and starts with l's columns, holding
      l's cells, except that a listed label's missing cells read x. */
  predicate KeepsFilled(out: Frame, l: Frame, labels: seq<string>, x: string) {
    && |out.rows| == |l.rows| && |out.columns| >= |l.columns|
    && forall i, j :: 0 <= i < |l.rows| && 0 <= j < |l.columns| ==>
         CellAt(out.rows[i], j) == (if out.columns[j] in labels then Filled(CellAt(l.rows[i], j), x) else CellAt(l.rows[i], j))
  }

  /** With unique keys on the right, filling a merge's missing cells keeps
      every left cell in place, except that a listed label's missing cells
      read x. */
  lemma JoinFillKeepsLeft(l: Frame, r: Frame, key: string, sl: string, sr: string, labels: seq<string>, x: string)
    requires WellFormed(l) && WellFormed(r) && Joinable(l, r, key)
    requires UniqueKeys(r.rows, IndexOf(r.columns, key))
    ensures KeepsFilled(FillAll(LeftJoin(l, r, key, sl, sr).value, labels, x), l, labels, x)
  {
    var jn := LeftJoin(l, r, key, sl, sr).value;
    LeftCellsKept(l, r, key, sl, sr);
    FillKeepsPrefix(jn, l, labels, x);
  }
}
