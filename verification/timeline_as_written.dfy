/**
  The roadmap's month buckets as the front end computes them: pad the earliest
  and latest dates with `setMonth(getMonth() -/+ 1)`, then step from the first
  to the second with `setMonth(getMonth() + 1)`, keeping the day of the month.
  Each step yields one bucket labelled with the month it lands in.
 */
module TimelineAsWritten {
  import opened Calendar
  import opened Timeline

  /** The loop `while (fechaActual <= fechaMax)`: the days visited from `cur` while not past `last`. */
  function Steps(cur: Day, last: Day): (ps: seq<Day>)
    ensures cur <= last ==> |ps| > 0 && ps[0] == cur
    ensures cur > last ==> ps == []
    ensures forall i :: 0 <= i < |ps| - 1 ==> ps[i + 1] == ShiftMonths(ps[i], 1)
    ensures forall i :: 0 <= i < |ps| ==> ps[i] <= last
    ensures cur <= last ==> ShiftMonths(ps[|ps| - 1], 1) > last
    decreases last - cur
  {
    if cur > last then []
    else
      ShiftForwardIsLater(cur, 1);
      [cur] + Steps(ShiftMonths(cur, 1), last)
  }

  /** The bucket days for dates between `lo` and `hi`, as written. */
  function BucketDatesAsWritten(lo: Day, hi: Day): (ps: seq<Day>)
    requires lo <= hi
    ensures |ps| > 0 && ps[0] == ShiftMonths(lo, -1)
    ensures forall i :: 0 <= i < |ps| - 1 ==> ps[i + 1] == ShiftMonths(ps[i], 1)
    ensures forall i :: 0 <= i < |ps| ==> ps[i] <= ShiftMonths(hi, 1)
    ensures ShiftMonths(ps[|ps| - 1], 1) > ShiftMonths(hi, 1)
  {
    ShiftBackIsEarlier(lo);
    ShiftForwardIsLater(hi, 1);
    Steps(ShiftMonths(lo, -1), ShiftMonths(hi, 1))
  }

  /** The month each of `ps` falls in. */
  function MonthsOf(ps: seq<Day>): (ms: seq<int>)
    ensures |ms| == |ps|
  {
    if ps == [] then [] else [MonthOf(ps[0])] + MonthsOf(ps[1..])
  }

  /** The month each as-written bucket is labelled with. */
  function BucketLabelsAsWritten(lo: Day, hi: Day): (ms: seq<int>)
    requires lo <= hi
  {
    MonthsOf(BucketDatesAsWritten(lo, hi))
  }

  /** Day `k` of month `m` lies in month `m`. */
  lemma InMonth(m: int, k: int)
    requires 0 <= k < MonthLength(m)
    ensures MonthOf(MonthStart(m) + k) == m && DayInMonth(MonthStart(m) + k) == k
  {
    MonthStartStep(m);
    MonthOfUnique(MonthStart(m) + k, m);
    assert DayInMonth(MonthStart(m) + k) == MonthStart(m) + k - MonthStart(m);
  }

  /** Month index `mi == 12 * y + mo` is month `mo` of year `y`. */
  lemma MonthIndexParts(mi: int, y: int, mo: int)
    requires 0 <= mo < 12 && mi == 12 * y + mo
    ensures MonthLength(mi) == DaysInMonth(y, mo)
  {
  }

  lemma StepsLast(cur: Day, last: Day)
    requires cur <= last < ShiftMonths(cur, 1)
    ensures Steps(cur, last) == [cur]
  {
  }

  lemma StepsNext(cur: Day, last: Day)
    requires cur <= last
    ensures Steps(cur, last) == [cur] + Steps(ShiftMonths(cur, 1), last)
  {
  }

  lemma BucketDatesAre(lo: Day, hi: Day, first: Day, last: Day)
    requires lo <= hi && ShiftMonths(lo, -1) == first && ShiftMonths(hi, 1) == last
    ensures BucketDatesAsWritten(lo, hi) == Steps(first, last)
  {
  }

  lemma MonthsOfTwo(a: Day, b: Day)
    ensures MonthsOf([a, b]) == [MonthOf(a), MonthOf(b)]
  {
    assert [a, b][1..] == [b];
    assert [b][1..] == [];
  }

  lemma MonthsOfThree(a: Day, b: Day, c: Day)
    ensures MonthsOf([a, b, c]) == [MonthOf(a), MonthOf(b), MonthOf(c)]
  {
    assert [a, b, c][1..] == [b, c];
    MonthsOfTwo(b, c);
  }

  /** The corrected buckets for dates in months `a` and `b`: months `a - 1` through `b + 1`. */
  lemma BucketMonthsBetween(lo: Day, hi: Day, a: int, b: int)
    requires lo <= hi && MonthOf(lo) == a && MonthOf(hi) == b
    ensures |BucketMonths(lo, hi)| == b - a + 3
    ensures forall i :: 0 <= i < b - a + 3 ==> BucketMonths(lo, hi)[i] == a - 1 + i
  {
  }

  lemma RunOfMonths(ms: seq<int>, a: int, n: nat)
    requires |ms| == n && forall i :: 0 <= i < n ==> ms[i] == a + i
    ensures n == 3 ==> ms == [a, a + 1, a + 2]
    ensures n == 4 ==> ms == [a, a + 1, a + 2, a + 3]
  {
  }

  /** Two steps of one month each from `a` before passing `last`. */
  lemma TwoSteps(a: Day, b: Day, last: Day)
    requires ShiftMonths(a, 1) == b
    requires b <= last < ShiftMonths(b, 1)
    ensures Steps(a, last) == [a, b]
  {
    ShiftForwardIsLater(a, 1);
    StepsLast(b, last);
    StepsNext(a, last);
  }

  /** Three steps of one month each from `a` before passing `last`. */
  lemma ThreeSteps(a: Day, b: Day, c: Day, last: Day)
    requires ShiftMonths(a, 1) == b && ShiftMonths(b, 1) == c
    requires c <= last < ShiftMonths(c, 1)
    ensures Steps(a, last) == [a, b, c]
  {
    ShiftForwardIsLater(a, 1);
    TwoSteps(b, c, last);
    StepsNext(a, last);
    assert [a] + [b, c] == [a, b, c];
  }

  /**
    The trailing padding month is lost whenever the earliest date's day of the
    month (at most the 28th) is later than the latest date's, a month on: the
    steps keep the earliest date's day and overshoot the padded end.
   */
  lemma TrailingPaddingMonthLost(lo: Day, hi: Day)
    requires MonthOf(hi) == MonthOf(lo) + 1
    requires DayInMonth(hi) < DayInMonth(lo) < 28
    ensures lo <= hi
    ensures BucketLabelsAsWritten(lo, hi) == [MonthOf(lo) - 1, MonthOf(lo), MonthOf(hi)]
    ensures BucketMonths(lo, hi) == [MonthOf(lo) - 1, MonthOf(lo), MonthOf(hi), MonthOf(hi) + 1]
  {
    DayOrder(lo, hi);
    var a := ShiftMonths(lo, -1);
    ShiftKeepsDay(lo, -1);
    var last := ShiftMonths(hi, 1);
    ShiftKeepsDay(hi, 1);
    var b := ShiftMonths(a, 1);
    ShiftKeepsDay(a, 1);
    var c := ShiftMonths(b, 1);
    ShiftKeepsDay(b, 1);
    ShiftKeepsDay(c, 1);
    DayOrder(c, last);
    DayOrder(last, ShiftMonths(c, 1));
    ThreeSteps(a, b, c, last);
    BucketDatesAre(lo, hi, a, last);
    MonthsOfThree(a, b, c);
    BucketMonthsBetween(lo, hi, MonthOf(lo), MonthOf(hi));
    RunOfMonths(BucketMonths(lo, hi), MonthOf(lo) - 1, 4);
  }

  /** For instance tasks dated January 20 and February 10 of any year. */
  lemma TrailingPaddingMonthLostInJanuary(y: int)
    ensures DateOf(y, 1, 20) < DateOf(y, 2, 10)
    ensures BucketLabelsAsWritten(DateOf(y, 1, 20), DateOf(y, 2, 10)) == [12 * y - 1, 12 * y, 12 * y + 1]
    ensures BucketMonths(DateOf(y, 1, 20), DateOf(y, 2, 10)) == [12 * y - 1, 12 * y, 12 * y + 1, 12 * y + 2]
  {
    JanuaryAndFebruary(y);
    TrailingPaddingMonthLost(DateOf(y, 1, 20), DateOf(y, 2, 10));
  }

  lemma JanuaryAndFebruary(y: int)
    ensures MonthOf(DateOf(y, 1, 20)) == 12 * y && DayInMonth(DateOf(y, 1, 20)) == 19
    ensures MonthOf(DateOf(y, 2, 10)) == 12 * y + 1 && DayInMonth(DateOf(y, 2, 10)) == 9
  {
    assert DateOf(y, 1, 20) == MonthStart(12 * y) + 19 by { assert 12 * y + 1 - 1 == 12 * y; }
    assert DateOf(y, 2, 10) == MonthStart(12 * y + 1) + 9 by { assert 12 * y + 2 - 1 == 12 * y + 1; }
    InMonth(12 * y, 19);
    InMonth(12 * y + 1, 9);
  }

  /**
    A task on the 31st of a month between a 28-day and a 30-day month (March of a
    common year): the padded start runs over into the month itself, so the
    leading padding month gets no bucket.
   */
  lemma MonthEndLosesLeadingPaddingMonth(d: Day)
    requires DayInMonth(d) == 30
    requires MonthLength(MonthOf(d) - 1) == 28 && MonthLength(MonthOf(d) + 1) == 30
    ensures BucketLabelsAsWritten(d, d) == [MonthOf(d), MonthOf(d) + 1]
    ensures BucketMonths(d, d) == [MonthOf(d) - 1, MonthOf(d), MonthOf(d) + 1]
  {
    var a := ShiftMonths(d, -1);
    ShiftOverflows(d, -1);
    var last := ShiftMonths(d, 1);
    ShiftOverflows(d, 1);
    var b := ShiftMonths(a, 1);
    ShiftKeepsDay(a, 1);
    ShiftKeepsDay(b, 1);
    DayOrder(b, last);
    DayOrder(last, ShiftMonths(b, 1));
    TwoSteps(a, b, last);
    BucketDatesAre(d, d, a, last);
    MonthsOfTwo(a, b);
    BucketMonthsBetween(d, d, MonthOf(d), MonthOf(d));
    RunOfMonths(BucketMonths(d, d), MonthOf(d) - 1, 3);
  }

  /** For instance a task dated March 31 of a common year. */
  lemma MonthEndLosesLeadingPaddingMonthInMarch(y: int)
    requires !IsLeapYear(y)
    ensures BucketLabelsAsWritten(DateOf(y, 3, 31), DateOf(y, 3, 31)) == [12 * y + 2, 12 * y + 3]
    ensures BucketMonths(DateOf(y, 3, 31), DateOf(y, 3, 31)) == [12 * y + 1, 12 * y + 2, 12 * y + 3]
  {
    MonthIndexParts(12 * y + 1, y, 1);
    MonthIndexParts(12 * y + 2, y, 2);
    MonthIndexParts(12 * y + 3, y, 3);
    assert DateOf(y, 3, 31) == MonthStart(12 * y + 2) + 30 by { assert 12 * y + 3 - 1 == 12 * y + 2; }
    InMonth(12 * y + 2, 30);
    MonthEndLosesLeadingPaddingMonth(DateOf(y, 3, 31));
  }

  /**
    An earliest date on the 31st of a month followed by a 30-day month, with the
    latest date in that 30-day month: the step from the 31st runs over into the
    month after, so the 30-day month itself gets no bucket.
   */
  lemma MonthEndSkipsNextMonth(lo: Day, hi: Day)
    requires DayInMonth(lo) == 30
    requires MonthLength(MonthOf(lo) - 1) == 31 && MonthLength(MonthOf(lo) + 1) == 30
    requires MonthOf(hi) == MonthOf(lo) + 1 && DayInMonth(hi) < 28
    ensures lo <= hi
    ensures BucketLabelsAsWritten(lo, hi) == [MonthOf(lo) - 1, MonthOf(lo), MonthOf(hi) + 1]
    ensures BucketMonths(lo, hi) == [MonthOf(lo) - 1, MonthOf(lo), MonthOf(hi), MonthOf(hi) + 1]
  {
    DayOrder(lo, hi);
    var a, b, c := SkipDates(lo, hi);
    LabelsOfThree(lo, hi, a, b, c);
    BucketMonthsOneApart(lo, hi);
  }

  lemma SkipDates(lo: Day, hi: Day) returns (a: Day, b: Day, c: Day)
    requires DayInMonth(lo) == 30
    requires MonthLength(MonthOf(lo) - 1) == 31 && MonthLength(MonthOf(lo) + 1) == 30
    requires MonthOf(hi) == MonthOf(lo) + 1 && DayInMonth(hi) < 28
    requires lo <= hi
    ensures BucketDatesAsWritten(lo, hi) == [a, b, c]
    ensures MonthOf(a) == MonthOf(lo) - 1 && MonthOf(b) == MonthOf(lo) && MonthOf(c) == MonthOf(lo) + 2
  {
    a := ShiftMonths(lo, -1);
    var last := ShiftMonths(hi, 1);
    b := ShiftMonths(a, 1);
    c := ShiftMonths(b, 1);
    SkipSetup(lo, hi);
    SkippingSteps(a, b, c, last);
    BucketDatesAre(lo, hi, a, last);
  }

  lemma SkipSetup(lo: Day, hi: Day)
    requires DayInMonth(lo) == 30
    requires MonthLength(MonthOf(lo) - 1) == 31 && MonthLength(MonthOf(lo) + 1) == 30
    requires MonthOf(hi) == MonthOf(lo) + 1 && DayInMonth(hi) < 28
    ensures MonthOf(ShiftMonths(lo, -1)) == MonthOf(lo) - 1 && DayInMonth(ShiftMonths(lo, -1)) == 30
    ensures MonthLength(MonthOf(ShiftMonths(lo, -1)) + 1) == 31
    ensures MonthLength(MonthOf(ShiftMonths(lo, -1)) + 2) == 30
    ensures MonthOf(ShiftMonths(hi, 1)) == MonthOf(ShiftMonths(lo, -1)) + 3
    ensures DayInMonth(ShiftMonths(hi, 1)) < 28
  {
    ShiftKeepsDay(lo, -1);
    ShiftKeepsDay(hi, 1);
  }

  lemma LabelsOfThree(lo: Day, hi: Day, a: Day, b: Day, c: Day)
    requires lo <= hi && BucketDatesAsWritten(lo, hi) == [a, b, c]
    ensures BucketLabelsAsWritten(lo, hi) == [MonthOf(a), MonthOf(b), MonthOf(c)]
  {
    MonthsOfThree(a, b, c);
  }

  lemma BucketMonthsOneApart(lo: Day, hi: Day)
    requires lo <= hi && MonthOf(hi) == MonthOf(lo) + 1
    ensures BucketMonths(lo, hi) == [MonthOf(lo) - 1, MonthOf(lo), MonthOf(hi), MonthOf(hi) + 1]
  {
    BucketMonthsBetween(lo, hi, MonthOf(lo), MonthOf(hi));
    RunOfMonths(BucketMonths(lo, hi), MonthOf(lo) - 1, 4);
  }

  /** The three steps from the 31st of a month into a 31-day and then a 30-day month. */
  lemma SkippingSteps(a: Day, b: Day, c: Day, last: Day)
    requires DayInMonth(a) == 30
    requires MonthLength(MonthOf(a) + 1) == 31 && MonthLength(MonthOf(a) + 2) == 30
    requires b == ShiftMonths(a, 1) && c == ShiftMonths(b, 1)
    requires MonthOf(last) == MonthOf(a) + 3 && DayInMonth(last) < 28
    ensures Steps(a, last) == [a, b, c]
    ensures MonthOf(b) == MonthOf(a) + 1 && MonthOf(c) == MonthOf(a) + 3
  {
    ShiftKeepsDay(a, 1);
    ShiftOverflows(b, 1);
    ShiftKeepsDay(c, 1);
    if DayInMonth(last) > 0 {
      DayOrder(c, last);
    } else {
      assert c == MonthStart(MonthOf(c)) + DayInMonth(c);
    }
    DayOrder(last, ShiftMonths(c, 1));
    ThreeSteps(a, b, c, last);
  }

  /** For instance tasks dated August 31 and September 15 of any year: September gets no bucket. */
  lemma MonthEndSkipsNextMonthInAugust(y: int)
    ensures DateOf(y, 8, 31) < DateOf(y, 9, 15)
    ensures BucketLabelsAsWritten(DateOf(y, 8, 31), DateOf(y, 9, 15)) == [12 * y + 6, 12 * y + 7, 12 * y + 9]
    ensures BucketMonths(DateOf(y, 8, 31), DateOf(y, 9, 15)) == [12 * y + 6, 12 * y + 7, 12 * y + 8, 12 * y + 9]
  {
    var lo, hi := DateOf(y, 8, 31), DateOf(y, 9, 15);
    AugustAndSeptember(y);
    MonthEndSkipsNextMonth(lo, hi);
  }

  lemma AugustAndSeptember(y: int)
    ensures MonthOf(DateOf(y, 8, 31)) == 12 * y + 7 && DayInMonth(DateOf(y, 8, 31)) == 30
    ensures MonthOf(DateOf(y, 9, 15)) == 12 * y + 8 && DayInMonth(DateOf(y, 9, 15)) == 14
    ensures MonthLength(MonthOf(DateOf(y, 8, 31)) - 1) == 31
    ensures MonthLength(MonthOf(DateOf(y, 8, 31)) + 1) == 30
  {
    MonthIndexParts(12 * y + 6, y, 6);
    MonthIndexParts(12 * y + 7, y, 7);
    MonthIndexParts(12 * y + 8, y, 8);
    assert DateOf(y, 8, 31) == MonthStart(12 * y + 7) + 30 by { assert 12 * y + 8 - 1 == 12 * y + 7; }
    assert DateOf(y, 9, 15) == MonthStart(12 * y + 8) + 14 by { assert 12 * y + 9 - 1 == 12 * y + 8; }
    InMonth(12 * y + 7, 30);
    InMonth(12 * y + 8, 14);
  }
}
