/** The calendar operations the pipeline borrows from pandas, passed in as a
    record of functions: tolerant parsing, assembling the first day of a
    month, `DateOffset(months=m)` subtraction and year extraction. Only the
    laws the pipeline relies on are assumed of them. */
module Dates {

  import opened Wrappers
  import opened Table

  datatype Calendar = Calendar(
    /** `pd.to_datetime(cell, errors='coerce')`: None is NaT. */
    parse: Cell -> Option<Date>,
    /** The first day of (year, month), or None when pandas cannot represent it. */
    firstOfMonth: (int, int) -> Option<Date>,
    /** `d - pd.DateOffset(months=m)` */
    minusMonths: (Date, nat) -> Date,
    /** `Timestamp.year` */
    yearOf: Date -> int)

  /** Laws of the real calendar that the window arithmetic depends on:
      going back a positive number of months moves strictly into the past,
      going back further never lands later, and a missing cell parses to NaT. */
  ghost predicate Valid(cal: Calendar) {
    && cal.parse(Null) == None
    && (forall d: Date, m: nat :: m > 0 ==> cal.minusMonths(d, m) < d)
    && (forall d: Date, m1: nat, m2: nat :: m1 <= m2 ==> cal.minusMonths(d, m2) <= cal.minusMonths(d, m1))
  }

  /** The timestamp held by a date cell; any other cell is NaT. */
  function DateOf(c: Cell): (r: Option<Date>)
    ensures r.Some? <==> c.When?
  {
    if c.When? then Some(c.d) else None
  }

  /** `int(d.timestamp() * 1000)`: milliseconds since the epoch, truncated
      toward zero like Python's `int()`. */
  function EpochMs(d: Date): (ms: int)
    ensures d >= 0 ==> 0 <= ms && ms * 1_000_000 <= d < (ms + 1) * 1_000_000
    ensures d < 0 ==> ms <= 0 && (ms - 1) * 1_000_000 < d <= ms * 1_000_000
  {
    if d >= 0 then d / 1_000_000 else -((-d) / 1_000_000)
  }

  /** An epoch-millisecond stamp is zero exactly for instants less than one
      millisecond away from the epoch. */
  lemma EpochMsZero(d: Date)
    ensures EpochMs(d) == 0 <==> -1_000_000 < d < 1_000_000
  {
  }

  /** Later instants never get smaller stamps. */
  lemma EpochMsMonotone(a: Date, b: Date)
    requires a <= b
    ensures EpochMs(a) <= EpochMs(b)
  {
  }
}
