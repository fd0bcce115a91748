/** The comparison windows of the trend monitor. Each window of m months
    ends at the latest date of the filtered facts: the current bucket is the
    m months before it, the previous bucket the m months before that, both
    half-open on the left. */
module Windows {

  import opened Wrappers
  import opened Table
  import opened Dates

  /** The window lengths in months, in display order ("6M", "1Y", "1.5Y"). */
  const Months: seq<nat> := [6, 12, 18]

  const Names: seq<string> := ["6M", "1Y", "1.5Y"]

  /** The three boundaries of one window. */
  datatype Window = Window(prevStart: Date, actStart: Date, end: Date)

  /** The window of m months ending at max. The previous bucket starts two
      successive m-month steps back, which on a real calendar need not be
      the same instant as one 2m-month step. */
  function WindowOf(cal: Calendar, max: Date, m: nat): (w: Window)
    ensures w.end == max && w.actStart == cal.minusMonths(max, m) && w.prevStart == cal.minusMonths(w.actStart, m)
    ensures Valid(cal) && m > 0 ==> w.prevStart < w.actStart < w.end
  {
    var a := cal.minusMonths(max, m);
    Window(cal.minusMonths(a, m), a, max)
  }

  /** `(d > f_ini_act) & (d <= fecha_max)`: a missing date compares false. */
  predicate InAct(w: Window, d: Option<Date>)
    ensures d.None? ==> !InAct(w, d)
  {
    d.Some? && w.actStart < d.value <= w.end
  }

  /** `(d > f_ini_prev) & (d <= f_ini_act)`: likewise. */
  predicate InPrev(w: Window, d: Option<Date>)
    ensures d.None? ==> !InPrev(w, d)
  {
    d.Some? && w.prevStart < d.value <= w.actStart
  }

  /** The buckets of a window: the latest date is current, the start of the
      current bucket is previous and not current, a date is in at most one
      bucket, and a missing date is in neither. */
  lemma Buckets(cal: Calendar, max: Date, m: nat, d: Option<Date>)
    requires Valid(cal) && m > 0
    ensures var w := WindowOf(cal, max, m);
            && InAct(w, Some(max))
            && InPrev(w, Some(w.actStart)) && !InAct(w, Some(w.actStart))
            && !(InAct(w, d) && InPrev(w, d))
            && !InAct(w, None) && !InPrev(w, None)
  {
  }

  /** A date falls in the current bucket exactly when it is after the
      bucket's start and not after the latest date, and in the previous
      bucket exactly when it is after the previous start and not after the
      current start; everything else (earlier dates, later dates, a missing
      date) counts nowhere. */
  lemma BucketOf(cal: Calendar, max: Date, m: nat, d: Date)
    requires Valid(cal) && m > 0
    ensures var w := WindowOf(cal, max, m);
            && (InAct(w, Some(d)) <==> cal.minusMonths(max, m) < d <= max)
            && (InPrev(w, Some(d)) <==> cal.minusMonths(cal.minusMonths(max, m), m) < d <= cal.minusMonths(max, m))
            && (d <= w.prevStart || d > max ==> !InAct(w, Some(d)) && !InPrev(w, Some(d)))
  {
  }

  /** Longer windows reach further back: a date in the current bucket of a
      shorter window is in the current bucket of a longer one. */
  lemma LongerWindowCovers(cal: Calendar, max: Date, m1: nat, m2: nat, d: Option<Date>)
    requires Valid(cal) && 0 < m1 <= m2
    requires InAct(WindowOf(cal, max, m1), d)
    ensures InAct(WindowOf(cal, max, m2), d)
  {
    assert cal.minusMonths(max, m2) <= cal.minusMonths(max, m1);
  }

  /** The three windows of the monitor. */
  function All(cal: Calendar, max: Date): (ws: seq<Window>)
    ensures |ws| == |Months| == |Names|
    ensures forall k :: 0 <= k < |ws| ==> ws[k] == WindowOf(cal, max, Months[k])
  {
    seq(|Months|, k requires 0 <= k < |Months| => WindowOf(cal, max, Months[k]))
  }
}
