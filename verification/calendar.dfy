/**
  The proleptic Gregorian calendar on day ordinals.

  A day is an integer counting days from 1970-01-01, the instant `new Date(0)` of
  the front end. A month is an integer month index `12 * year + (month - 1)`, so
  consecutive calendar months have consecutive indices and `index % 12` is the
  0-based month that `Date.prototype.getMonth` returns.
 */
module Calendar {

  /** Days since 1970-01-01. */
  type Day = int

  /** 1970-01-01, the `new Date(0)` the front end substitutes for a missing date. */
  const Epoch: Day := 0

  /** Month index of January 1970. */
  const EpochMonth: int := 1970 * 12

  predicate IsLeapYear(y: int) {
    y % 4 == 0 && (y % 100 != 0 || y % 400 == 0)
  }

  /** Length of month `m` (0-based) of year `y`. */
  function DaysInMonth(y: int, m: int): (n: int)
    requires 0 <= m < 12
    ensures 28 <= n <= 31
  {
    if m == 1 then (if IsLeapYear(y) then 29 else 28)
    else if m == 3 || m == 5 || m == 8 || m == 10 then 30
    else 31
  }

  /** Length of the month with index `mi`. */
  function MonthLength(mi: int): (n: int)
    ensures 28 <= n <= 31
  {
    DaysInMonth(mi / 12, mi % 12)
  }

  /**
    The day ordinal of the first day of month index `mi`: the month lengths
    from January 1970 added up (or, before 1970, subtracted).
   */
  function MonthStart(mi: int): Day
    decreases if mi < EpochMonth then EpochMonth - mi else mi - EpochMonth
  {
    if mi == EpochMonth then Epoch
    else if mi > EpochMonth then MonthStart(mi - 1) + MonthLength(mi - 1)
    else MonthStart(mi + 1) - MonthLength(mi)
  }

  /** The day ordinal of the calendar date y-mo-d (mo and d 1-based). */
  function DateOf(y: int, mo: int, d: int): Day
    requires 1 <= mo <= 12 && 1 <= d <= DaysInMonth(y, mo - 1)
  {
    MonthStart(12 * y + mo - 1) + d - 1
  }

  /** 9999-12-31, the `new Date('9999-12-31')` the front end puts in place of a missing end date. */
  const FarFuture: Day := DateOf(9999, 12, 31)

  /** Consecutive month starts are one month length apart. */
  lemma MonthStartStep(mi: int)
    ensures MonthStart(mi + 1) == MonthStart(mi) + MonthLength(mi)
  {
  }

  /** Month starts grow by 28 to 31 days per month. */
  lemma {:induction false} MonthStartBounds(a: int, b: int)
    requires a <= b
    ensures MonthStart(a) + 28 * (b - a) <= MonthStart(b) <= MonthStart(a) + 31 * (b - a)
    decreases b - a
  {
    if a < b {
      MonthStartBounds(a, b - 1);
      MonthStartStep(b - 1);
    }
  }

  lemma MonthStartStrictlyIncreasing(a: int, b: int)
    requires a < b
    ensures MonthStart(a) < MonthStart(b)
  {
    MonthStartBounds(a, b);
  }

  /** The month containing `d`, found by stepping forward from month `m`. */
  function MonthOfFrom(d: Day, m: int): (r: int)
    requires MonthStart(m) <= d
    ensures m <= r
    ensures MonthStart(r) <= d < MonthStart(r + 1)
    decreases d - MonthStart(m)
  {
    MonthStartStep(m);
    if d < MonthStart(m + 1) then m else MonthOfFrom(d, m + 1)
  }

  /** The month containing `d`, found by stepping back from month `m`. */
  function MonthOfBefore(d: Day, m: int): (r: int)
    requires d < MonthStart(m + 1)
    ensures r <= m
    ensures MonthStart(r) <= d < MonthStart(r + 1)
    decreases MonthStart(m + 1) - d
  {
    MonthStartStep(m);
    if MonthStart(m) <= d then m else MonthOfBefore(d, m - 1)
  }

  /** The month index of day `d`: the (year, month) a locale label of `d` shows. */
  function MonthOf(d: Day): (m: int)
    ensures MonthStart(m) <= d < MonthStart(m + 1)
  {
    if d >= Epoch then MonthOfFrom(d, EpochMonth) else MonthOfBefore(d, EpochMonth - 1)
  }

  /** A day lies in exactly one month. */
  lemma MonthOfUnique(d: Day, m: int)
    requires MonthStart(m) <= d < MonthStart(m + 1)
    ensures MonthOf(d) == m
  {
    var r := MonthOf(d);
    if r < m {
      MonthStartBounds(r + 1, m);
    } else if m < r {
      MonthStartBounds(m + 1, r);
    }
  }

  lemma MonthOfMonthStart(m: int)
    ensures MonthOf(MonthStart(m)) == m
  {
    MonthStartStep(m);
    MonthOfUnique(MonthStart(m), m);
  }

  /** Later days never fall in earlier months. */
  lemma MonthOfMonotone(d: Day, e: Day)
    requires d <= e
    ensures MonthOf(d) <= MonthOf(e)
  {
    var a, b := MonthOf(d), MonthOf(e);
    if b < a {
      MonthStartBounds(b + 1, a);
    }
  }

  /** Day-of-month minus one: 0 on the first of a month, at most 30. */
  function DayInMonth(d: Day): (k: int)
    ensures 0 <= k < MonthLength(MonthOf(d))
    ensures 0 <= k <= 30
  {
    MonthStartStep(MonthOf(d));
    d - MonthStart(MonthOf(d))
  }

  /**
    `date.setMonth(date.getMonth() + k)`: keep the day of the month and move
    `k` months; a day the target month lacks overflows into the month after.
   */
  function ShiftMonths(d: Day, k: int): (r: Day)
    ensures MonthOf(d) + k <= MonthOf(r) <= MonthOf(d) + k + 1
    ensures MonthOf(r) == MonthOf(d) + k <==>
              DayInMonth(d) < MonthLength(MonthOf(d) + k)
  {
    var m := MonthOf(d) + k;
    ShiftLands(m, DayInMonth(d));
    MonthStart(m) + DayInMonth(d)
  }

  /** A day offset `k <= 30` from the start of month `m` lies in month `m` or the next one. */
  lemma ShiftLands(m: int, k: int)
    requires 0 <= k <= 30
    ensures MonthOf(MonthStart(m) + k) == (if k < MonthLength(m) then m else m + 1)
  {
    MonthStartStep(m);
    if k < MonthLength(m) {
      MonthOfUnique(MonthStart(m) + k, m);
    } else {
      OverflowLandsInNextMonth(m, k);
    }
  }

  lemma OverflowLandsInNextMonth(m: int, k: int)
    requires MonthLength(m) <= k <= 30
    ensures MonthOf(MonthStart(m) + k) == m + 1
  {
    var s0, n0, n1 := MonthStart(m), MonthLength(m), MonthLength(m + 1);
    MonthStartStep(m);
    MonthStartStep(m + 1);
    assert MonthStart(m + 1) == s0 + n0;
    assert MonthStart(m + 1 + 1) == s0 + n0 + n1;
    MonthOfUnique(s0 + k, m + 1);
  }

  /** Shifting forward by a positive number of months moves strictly later. */
  lemma ShiftForwardIsLater(d: Day, k: int)
    requires k > 0
    ensures ShiftMonths(d, k) > d
  {
    MonthStartStrictlyIncreasing(MonthOf(d), MonthOf(d) + k);
  }

  /** Shifting back by one month moves strictly earlier. */
  lemma ShiftBackIsEarlier(d: Day)
    ensures ShiftMonths(d, -1) < d
  {
    MonthStartStep(MonthOf(d) - 1);
  }

  /** A shift whose target month has the day keeps the day of the month. */
  lemma ShiftKeepsDay(d: Day, k: int)
    requires DayInMonth(d) < MonthLength(MonthOf(d) + k)
    ensures MonthOf(ShiftMonths(d, k)) == MonthOf(d) + k
    ensures DayInMonth(ShiftMonths(d, k)) == DayInMonth(d)
  {
  }

  /** A shift whose target month lacks the day runs over into the month after. */
  lemma ShiftOverflows(d: Day, k: int)
    requires DayInMonth(d) >= MonthLength(MonthOf(d) + k)
    ensures MonthOf(ShiftMonths(d, k)) == MonthOf(d) + k + 1
    ensures DayInMonth(ShiftMonths(d, k)) == DayInMonth(d) - MonthLength(MonthOf(d) + k)
  {
    MonthStartStep(MonthOf(d) + k);
  }

  /** Days compare as their (month, day of month) pairs do. */
  lemma DayOrder(x: Day, y: Day)
    requires MonthOf(x) < MonthOf(y) || (MonthOf(x) == MonthOf(y) && DayInMonth(x) < DayInMonth(y))
    ensures x < y
  {
    if MonthOf(x) < MonthOf(y) {
      MonthStartBounds(MonthOf(x) + 1, MonthOf(y));
    }
  }
}
