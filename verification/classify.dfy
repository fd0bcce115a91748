/** The trend icon of each window in the monitor's tree: the previous and
    current quantities of a line, or of a group node (the sums of its
    lines), classified as lost, new, up, down, neutral or flat. */
module Signals {

  import opened Wrappers
  import opened Trend

  /** The icons, in the order the classifier tries them; Blank is the empty
      cell shown when a node has no data. */
  datatype Signal = Lost | New | Up | Down | Neutral | Flat | Blank

  /** `x || 0`: a missing quantity, and zero, read as zero. */
  function OrZero(x: Option<int>): (n: int)
    ensures x.None? ==> n == 0
    ensures x.Some? ==> n == x.value
  {
    x.GetOr(0)
  }

  /** The classifier, tried in order: everything lost, something from
      nothing, more, less, nothing at all, and otherwise unchanged. Each
      icon holds exactly under its own condition, so the six cases split
      every pair of quantities. */
  function Classify(prev: int, act: int): (s: Signal)
    ensures s == Lost <==> act == 0 && prev > 0
    ensures s == New <==> prev == 0 && act > 0
    ensures s == Up <==> act > prev && prev != 0
    ensures s == Down <==> act < prev && act != 0
    ensures s == Neutral <==> act == 0 && prev == 0
    ensures s == Flat <==> act == prev && act != 0
    ensures s != Blank
  {
    if act == 0 && prev > 0 then Lost
    else if prev == 0 && act > 0 then New
    else if act > prev then Up
    else if act < prev then Down
    else if act == prev && act == 0 then Neutral
    else Flat
  }

  /** The icon of a node: nothing without data, otherwise the classifier
      on its quantities with missing ones read as zero. */
  function IconOf(data: Option<(Option<int>, Option<int>)>): (s: Signal)
    ensures data.None? <==> s == Blank
    ensures data.Some? && data.value.0.None? && data.value.1.None? ==> s == Neutral
    ensures data.Some? ==> s == Classify(OrZero(data.value.0), OrZero(data.value.1))
  {
    match data
    case None => Blank
    case Some((prev, act)) => Classify(OrZero(prev), OrZero(act))
  }

  /** The previous quantities of window k, summed over a node's lines. */
  function PrevSum(ls: seq<Line>, k: nat): int
    requires forall j :: 0 <= j < |ls| ==> k < |ls[j].prev|
  {
    if |ls| == 0 then 0 else PrevSum(ls[..|ls| - 1], k) + ls[|ls| - 1].prev[k]
  }

  /** The icon of a group node: the classifier on the summed quantities. */
  function GroupIcon(ls: seq<Line>, k: nat): (s: Signal)
    requires forall j :: 0 <= j < |ls| ==> k < |ls[j].prev| && k < |ls[j].act|
    ensures s != Blank
    ensures |ls| == 0 ==> s == Neutral
  {
    Classify(PrevSum(ls, k), ActTotal(ls, k))
  }

  /** A group whose every line shows nothing in either period is neutral. */
  lemma {:induction false} AllNeutral(ls: seq<Line>, k: nat)
    requires forall j :: 0 <= j < |ls| ==> k < |ls[j].prev| && k < |ls[j].act|
    requires forall j :: 0 <= j < |ls| ==> Classify(ls[j].prev[k], ls[j].act[k]) == Neutral
    ensures GroupIcon(ls, k) == Neutral
  {
    ZeroSums(ls, k);
  }

  /** Lines with nothing in either period sum to nothing. */
  lemma {:induction false} ZeroSums(ls: seq<Line>, k: nat)
    requires forall j :: 0 <= j < |ls| ==> k < |ls[j].prev| && k < |ls[j].act|
    requires forall j :: 0 <= j < |ls| ==> ls[j].prev[k] == 0 && ls[j].act[k] == 0
    ensures PrevSum(ls, k) == 0 && ActTotal(ls, k) == 0
  {
    if |ls| > 0 {
      ZeroSums(ls[..|ls| - 1], k);
    }
  }

  /** A non-empty group all of whose lines were lost is lost. */
  lemma {:induction false} AllLost(ls: seq<Line>, k: nat)
    requires |ls| > 0
    requires forall j :: 0 <= j < |ls| ==> k < |ls[j].prev| && k < |ls[j].act|
    requires forall j :: 0 <= j < |ls| ==> Classify(ls[j].prev[k], ls[j].act[k]) == Lost
    ensures GroupIcon(ls, k) == Lost
  {
    LostSums(ls, k);
  }

  /** Lines with nothing current and something before sum the same way. */
  lemma {:induction false} LostSums(ls: seq<Line>, k: nat)
    requires |ls| > 0
    requires forall j :: 0 <= j < |ls| ==> k < |ls[j].prev| && k < |ls[j].act|
    requires forall j :: 0 <= j < |ls| ==> ls[j].prev[k] > 0 && ls[j].act[k] == 0
    ensures PrevSum(ls, k) > 0 && ActTotal(ls, k) == 0
  {
    if |ls| > 1 {
      LostSums(ls[..|ls| - 1], k);
    }
  }

  /** A non-empty group all of whose lines are new is new. */
  lemma {:induction false} AllNew(ls: seq<Line>, k: nat)
    requires |ls| > 0
    requires forall j :: 0 <= j < |ls| ==> k < |ls[j].prev| && k < |ls[j].act|
    requires forall j :: 0 <= j < |ls| ==> Classify(ls[j].prev[k], ls[j].act[k]) == New
    ensures GroupIcon(ls, k) == New
  {
    NewSums(ls, k);
  }

  /** Lines with something current and nothing before sum the same way. */
  lemma {:induction false} NewSums(ls: seq<Line>, k: nat)
    requires |ls| > 0
    requires forall j :: 0 <= j < |ls| ==> k < |ls[j].prev| && k < |ls[j].act|
    requires forall j :: 0 <= j < |ls| ==> ls[j].prev[k] == 0 && ls[j].act[k] > 0
    ensures PrevSum(ls, k) == 0 && ActTotal(ls, k) > 0
  {
    if |ls| > 1 {
      NewSums(ls[..|ls| - 1], k);
    }
  }
}
