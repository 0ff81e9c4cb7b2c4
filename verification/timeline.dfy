/**
  The roadmap view (`actualizarLineaTiempo`): the tasks of one status placed
  in monthly columns along a horizontal time line.

  Buckets are calendar months, one before the earliest date through one after
  the latest. The front end steps through them with `Date.prototype.setMonth`,
  which keeps the day of the month and so can drop a padding month (see the
  as-written model in `TimelineAsWritten`); this module is the month-by-month
  behaviour that code aims at.
 */
module Timeline {
  import opened Wrappers
  import opened Calendar
  import opened Seqs
  import opened Tasks

  /** The status filter of the roadmap; the empty string keeps every task. */
  predicate Passes(estado: string, t: Task) {
    estado == [] || t.estado == estado
  }

  function PassesOf(estado: string): Task -> bool {
    t => Passes(estado, t)
  }

  /** The tasks of the selected status, in list order. */
  function WorkingSet(ts: seq<Task>, estado: string): (r: seq<Task>)
    ensures forall t :: t in r <==> t in ts && Passes(estado, t)
    ensures IsSubsequence(r, ts)
  {
    FilterIsSubsequence(ts, PassesOf(estado));
    Filter(ts, PassesOf(estado))
  }

  /** The roadmap's sort key, an instant: a missing end date counts as 9999-12-31, any other missing date as 1970-01-01. */
  function TimelineRank(dim: Dimension): Task -> int {
    t => match InstantIn(t, dim)
         case Some(s) => s
         case None => if dim == Fin then Midnight(FarFuture) else Midnight(Epoch)
  }

  /** The working set sorted oldest first, ties kept in list order. */
  function Ordered(ts: seq<Task>, estado: string, dim: Dimension): (r: seq<Task>)
    ensures multiset(r) == multiset(WorkingSet(ts, estado))
    ensures forall i, j :: 0 <= i < j < |r| ==> TimelineRank(dim)(r[i]) <= TimelineRank(dim)(r[j])
    ensures forall t :: t in r <==> t in ts && Passes(estado, t)
  {
    var r := SortBy(WorkingSet(ts, estado), TimelineRank(dim));
    assert forall t :: t in r <==> t in multiset(r);
    r
  }

  /** Tasks with equal sort instants keep their order in the working set (`Array.prototype.sort` is stable). */
  lemma OrderedIsStable(ts: seq<Task>, estado: string, dim: Dimension)
    ensures forall k :: TieClass(Ordered(ts, estado, dim), TimelineRank(dim), k) ==
                        TieClass(WorkingSet(ts, estado), TimelineRank(dim), k)
  {
  }

  /** The dates the tasks carry in dimension `dim`, in task order. */
  function DatesOf(ts: seq<Task>, dim: Dimension): (ds: seq<Day>)
    ensures forall d :: d in ds <==> exists t :: t in ts && DateIn(t, dim) == Some(d)
    ensures ds == [] <==> forall t :: t in ts ==> DateIn(t, dim).None?
    decreases |ts|
  {
    if ts == [] then []
    else
      var rest := DatesOf(ts[1..], dim);
      assert forall t :: t in ts <==> t == ts[0] || t in ts[1..] by {
        assert ts == [ts[0]] + ts[1..];
      }
      match DateIn(ts[0], dim)
      case Some(d) => [d] + rest
      case None => rest
  }

  /**
    The bucket months for dates between `lo` and `hi`: every month from the one
    before `lo`'s through the one after `hi`'s.
   */
  function BucketMonths(lo: Day, hi: Day): (ms: seq<int>)
    requires lo <= hi
    ensures |ms| >= 3
    ensures ms[0] == MonthOf(lo) - 1 && ms[|ms| - 1] == MonthOf(hi) + 1
    ensures forall i :: 0 <= i < |ms| ==> ms[i] == ms[0] + i
    ensures forall d :: lo <= d <= hi ==> ms[0] < MonthOf(d) < ms[|ms| - 1]
  {
    MonthOfMonotone(lo, hi);
    var first := MonthOf(lo) - 1;
    var ms := seq(MonthOf(hi) + 2 - first, i requires 0 <= i => first + i);
    forall d | lo <= d <= hi
      ensures ms[0] < MonthOf(d) < ms[|ms| - 1]
    {
      MonthOfMonotone(lo, d);
      MonthOfMonotone(d, hi);
    }
    ms
  }

  /** The day a bucket stands for when distances are measured: the first of its month. */
  function Points(ms: seq<int>): (ps: seq<Day>)
    ensures |ps| == |ms|
    ensures forall i :: 0 <= i < |ms| ==> MonthOf(ps[i]) == ms[i]
  {
    var ps := seq(|ms|, i requires 0 <= i < |ms| => MonthStart(ms[i]));
    forall i | 0 <= i < |ms|
      ensures MonthOf(ps[i]) == ms[i]
    {
      MonthOfMonthStart(ms[i]);
    }
    ps
  }

  /** `tareasPorPunto[label]`: the first bucket whose label is month `m`, if any. */
  function FindLabel(ms: seq<int>, m: int): (r: Option<nat>)
    ensures r.None? <==> m !in ms
    ensures r.Some? ==> r.value < |ms| && ms[r.value] == m && forall j :: 0 <= j < r.value ==> ms[j] != m
  {
    if m in ms then
      var i :| 0 <= i < |ms| && ms[i] == m;
      Some(FirstFrom(ms, m, 0, i))
    else None
  }

  /** The first index at or after `lo` holding `m`, given one at `hi`. */
  function FirstFrom(ms: seq<int>, m: int, lo: nat, hi: nat): (k: nat)
    requires lo <= hi < |ms| && ms[hi] == m
    requires forall j :: 0 <= j < lo ==> ms[j] != m
    ensures k <= hi && ms[k] == m
    ensures forall j :: 0 <= j < k ==> ms[j] != m
    decreases hi - lo
  {
    if ms[lo] == m then lo else FirstFrom(ms, m, lo + 1, hi)
  }

  function Distance(a: Day, b: Day): nat {
    if a <= b then b - a else a - b
  }

  /**
    The nearest-bucket fallback: the first bucket at the least distance from
    `d`, scanning from the first with a strict `<`.
   */
  function Nearest(ps: seq<Day>, d: Day): (r: nat)
    requires |ps| > 0
    ensures r < |ps|
    ensures forall j :: 0 <= j < |ps| ==> Distance(d, ps[r]) <= Distance(d, ps[j])
    ensures forall j :: 0 <= j < r ==> Distance(d, ps[j]) > Distance(d, ps[r])
  {
    NearestFrom(ps, d, 1, 0)
  }

  function NearestFrom(ps: seq<Day>, d: Day, i: nat, best: nat): (r: nat)
    requires best < i <= |ps|
    requires forall j :: 0 <= j < i ==> Distance(d, ps[best]) <= Distance(d, ps[j])
    requires forall j :: 0 <= j < best ==> Distance(d, ps[j]) > Distance(d, ps[best])
    ensures r < |ps|
    ensures forall j :: 0 <= j < |ps| ==> Distance(d, ps[r]) <= Distance(d, ps[j])
    ensures forall j :: 0 <= j < r ==> Distance(d, ps[j]) > Distance(d, ps[r])
    decreases |ps| - i
  {
    if i == |ps| then best
    else if Distance(d, ps[i]) < Distance(d, ps[best]) then NearestFrom(ps, d, i + 1, i)
    else NearestFrom(ps, d, i + 1, best)
  }

  /**
    The bucket a task goes to: none without a date; else the bucket labelled with
    its month, or failing that the nearest bucket.
   */
  function Assign(ms: seq<int>, dim: Dimension, t: Task): (r: Option<nat>)
    requires |ms| > 0
    ensures r.Some? <==> DateIn(t, dim).Some?
    ensures r.Some? ==> r.value < |ms|
    ensures r.Some? && MonthOf(DateIn(t, dim).value) in ms ==> ms[r.value] == MonthOf(DateIn(t, dim).value)
  {
    match DateIn(t, dim)
    case None => None
    case Some(d) =>
      match FindLabel(ms, MonthOf(d))
      case Some(i) => Some(i)
      case None => Some(Nearest(Points(ms), d))
  }

  /** A dated task whose month has no bucket goes to the nearest bucket. */
  lemma AssignFallsBackToNearest(ms: seq<int>, dim: Dimension, t: Task)
    requires |ms| > 0 && DateIn(t, dim).Some? && MonthOf(DateIn(t, dim).value) !in ms
    ensures Assign(ms, dim, t) == Some(Nearest(Points(ms), DateIn(t, dim).value))
  {
  }

  function InBucket(ms: seq<int>, dim: Dimension, i: nat): Task -> bool
    requires |ms| > 0
  {
    t => Assign(ms, dim, t) == Some(i)
  }

  /**
    The columns `tareasPorPunto`, filled by pushing each task in turn onto the
    column it is assigned to. Column `i` holds exactly the tasks assigned to
    bucket `i`, in the order given.
   */
  function Distribute(ts: seq<Task>, ms: seq<int>, dim: Dimension): (cols: seq<seq<Task>>)
    requires |ms| > 0
    ensures |cols| == |ms|
    ensures forall i :: 0 <= i < |ms| ==> cols[i] == Filter(ts, InBucket(ms, dim, i))
    decreases |ts|
  {
    if ts == [] then seq(|ms|, _ => [])
    else
      var init, t := ts[..|ts| - 1], ts[|ts| - 1];
      var cols := Distribute(init, ms, dim);
      assert ts == init + [t];
      forall i | 0 <= i < |ms|
        ensures Filter(ts, InBucket(ms, dim, i)) ==
                  cols[i] + (if Assign(ms, dim, t) == Some(i) then [t] else [])
      {
        FilterSnoc(init, t, InBucket(ms, dim, i));
      }
      match Assign(ms, dim, t)
      case Some(i) => cols[i := cols[i] + [t]]
      case None => cols
  }

  /** Every dated task lands in exactly one column, as often as it occurs; undated tasks in none. */
  lemma DistributeTotal(ts: seq<Task>, ms: seq<int>, dim: Dimension, i: nat, t: Task)
    requires |ms| > 0 && i < |ms|
    ensures multiset(Distribute(ts, ms, dim)[i])[t] ==
              if Assign(ms, dim, t) == Some(i) then multiset(ts)[t] else 0
  {
    FilterMultiset(ts, InBucket(ms, dim, i));
  }

  /** A dated task whose month lies within consecutive buckets goes to that month's bucket. */
  lemma AssignToOwnMonth(ms: seq<int>, dim: Dimension, t: Task)
    requires |ms| > 0 && forall i :: 0 <= i < |ms| ==> ms[i] == ms[0] + i
    requires DateIn(t, dim).Some?
    requires ms[0] <= MonthOf(DateIn(t, dim).value) <= ms[|ms| - 1]
    ensures Assign(ms, dim, t) == Some(MonthOf(DateIn(t, dim).value) - ms[0])
  {
    var m := MonthOf(DateIn(t, dim).value);
    assert ms[m - ms[0]] == m;
  }

  /** `(index / puntosTiempo.length) * 100`: the left edge of bucket `i` of `n`, in percent. */
  function LeftPercent(i: nat, n: nat): (x: real)
    requires i < n
    ensures 0.0 <= x < 100.0
  {
    var q := i as real / n as real;
    assert q * n as real == i as real;
    q * 100.0
  }

  /** Later buckets sit further right. */
  lemma LeftPercentIncreasing(i: nat, j: nat, n: nat)
    requires i < j < n
    ensures LeftPercent(i, n) < LeftPercent(j, n)
  {
    var qi, qj := i as real / n as real, j as real / n as real;
    assert qi * n as real == i as real;
    assert qj * n as real == j as real;
    assert (qj - qi) * n as real == (j - i) as real;
  }

  /** Vertical spacing between the boxes of one column, in pixels. */
  const RowHeight: int := 120

  /** A task's box on the roadmap: its column, its place in the column and its position. */
  datatype Box = Box(task: Task, bucket: nat, slot: nat, left: real, top: int)

  /** The boxes of column `i` of `n`, top to bottom. */
  function ColumnBoxes(col: seq<Task>, i: nat, n: nat): (bs: seq<Box>)
    requires i < n
    ensures |bs| == |col|
    ensures forall k :: 0 <= k < |bs| ==> bs[k] == Box(col[k], i, k, LeftPercent(i, n), RowHeight * k)
  {
    seq(|col|, k requires 0 <= k < |col| => Box(col[k], i, k, LeftPercent(i, n), RowHeight * k))
  }

  /** The number of tasks in the first `n` columns. */
  function TotalUpTo(cols: seq<seq<Task>>, n: nat): nat
    requires n <= |cols|
  {
    if n == 0 then 0 else TotalUpTo(cols, n - 1) + |cols[n - 1]|
  }

  /** The boxes of the first `n` columns, column by column. */
  function BoxesUpTo(cols: seq<seq<Task>>, n: nat): (bs: seq<Box>)
    requires n <= |cols|
    ensures |bs| == TotalUpTo(cols, n)
    ensures forall p :: 0 <= p < |bs| ==>
              && bs[p].bucket < n
              && bs[p].slot < |cols[bs[p].bucket]|
              && bs[p].task == cols[bs[p].bucket][bs[p].slot]
              && bs[p].left == LeftPercent(bs[p].bucket, |cols|)
              && bs[p].top == RowHeight * bs[p].slot
    ensures forall p, q :: 0 <= p < q < |bs| ==>
              bs[p].bucket < bs[q].bucket || (bs[p].bucket == bs[q].bucket && bs[p].slot < bs[q].slot)
  {
    if n == 0 then []
    else
      var prev, last := BoxesUpTo(cols, n - 1), ColumnBoxes(cols[n - 1], n - 1, |cols|);
      var bs := prev + last;
      assert forall p :: |prev| <= p < |bs| ==> bs[p] == last[p - |prev|];
      bs
  }

  /** The roadmap's boxes for columns `cols`. */
  function Layout(cols: seq<seq<Task>>): seq<Box> {
    BoxesUpTo(cols, |cols|)
  }

  /** Distinct boxes never occupy the same spot, and every box lies within the chart's width. */
  lemma LayoutDoesNotOverlap(cols: seq<seq<Task>>, p: nat, q: nat)
    requires p < q < |Layout(cols)|
    ensures 0.0 <= Layout(cols)[p].left < 100.0
    ensures Layout(cols)[p].left != Layout(cols)[q].left || Layout(cols)[p].top != Layout(cols)[q].top
  {
    var bs := Layout(cols);
    if bs[p].bucket < bs[q].bucket {
      LeftPercentIncreasing(bs[p].bucket, bs[q].bucket, |cols|);
    }
  }

  /** Quarter of the year. */
  datatype Quarter = Q1 | Q2 | Q3 | Q4

  /** The quarter of 0-based month `mes`, by the source's chain of range tests. */
  function QuarterOf(mes: int): Quarter {
    if 0 <= mes < 3 then Q1
    else if 3 <= mes < 6 then Q2
    else if 6 <= mes < 9 then Q3
    else Q4
  }

  function QuarterNumber(q: Quarter): (n: int)
    ensures 1 <= n <= 4
  {
    match q
    case Q1 => 1
    case Q2 => 2
    case Q3 => 3
    case Q4 => 4
  }

  /** For a real month the quarter is its third of the year, counted from 1. */
  lemma QuarterOfIsThird(mes: int)
    requires 0 <= mes < 12
    ensures QuarterNumber(QuarterOf(mes)) == mes / 3 + 1
  {
  }

  /** A time-line marker: number, month, position, optional quarter tag and the "Inicio" tag. */
  datatype Marker = Marker(index: nat, month: int, left: real, quarter: Option<Quarter>, inicio: bool)

  /** The markers under the buckets `ms`. */
  function Markers(ms: seq<int>): (mk: seq<Marker>)
    ensures |mk| == |ms|
    ensures forall i :: 0 <= i < |ms| ==>
              && mk[i].index == i && mk[i].month == ms[i]
              && mk[i].left == LeftPercent(i, |ms|)
              && (mk[i].quarter.Some? <==> i % 3 == 0)
              && (mk[i].quarter.Some? ==> QuarterNumber(mk[i].quarter.value) == ms[i] % 12 / 3 + 1)
              && (mk[i].inicio <==> i == 0)
  {
    seq(|ms|, i requires 0 <= i < |ms| =>
      QuarterOfIsThird(ms[i] % 12);
      Marker(i, ms[i], LeftPercent(i, |ms|), if i % 3 == 0 then Some(QuarterOf(ms[i] % 12)) else None, i == 0))
  }

  /** What the roadmap shows: one of its two messages, or the chart. */
  datatype Roadmap =
    | NoTasks
    | NoDatedTasks
    | Chart(months: seq<int>, markers: seq<Marker>, columns: seq<seq<Task>>, boxes: seq<Box>)

  /** The working set's task is shown and has a date in dimension `dim`. */
  predicate DatedIn(ts: seq<Task>, estado: string, dim: Dimension, t: Task) {
    t in ts && Passes(estado, t) && DateIn(t, dim).Some?
  }

  /** Dated task `t` appears in the column of its own month, an inner one. */
  ghost predicate ShownInOwnMonth(dim: Dimension, months: seq<int>, columns: seq<seq<Task>>, t: Task) {
    && DateIn(t, dim).Some? && |months| > 0 && |columns| == |months|
    && var k := MonthOf(DateIn(t, dim).value) - months[0];
       0 < k < |months| - 1 && t in columns[k]
  }

  /** Every dated task of the working set appears in the column of its own month, an inner one. */
  ghost predicate EveryDatedTaskShown(ts: seq<Task>, estado: string, dim: Dimension, months: seq<int>, columns: seq<seq<Task>>) {
    && |months| >= 3 && |columns| == |months|
    && forall t :: DatedIn(ts, estado, dim, t) ==> ShownInOwnMonth(dim, months, columns, t)
  }

  /** A column holds only dated tasks of the working set whose month is the column's month. */
  ghost predicate ColumnsHoldOwnMonth(ts: seq<Task>, estado: string, dim: Dimension, months: seq<int>, columns: seq<seq<Task>>) {
    && |columns| == |months|
    && forall i, t :: 0 <= i < |columns| && t in columns[i] ==>
         DatedIn(ts, estado, dim, t) && MonthOf(DateIn(t, dim).value) == months[i]
  }

  /** Column `i` holds task `t` as often as the task list does if `t` is a dated task of its month, else not at all. */
  ghost predicate CountedInColumn(ts: seq<Task>, estado: string, dim: Dimension, months: seq<int>, columns: seq<seq<Task>>, i: int, t: Task) {
    && 0 <= i < |columns| && |columns| == |months|
    && multiset(columns[i])[t] ==
         if DatedIn(ts, estado, dim, t) && MonthOf(DateIn(t, dim).value) == months[i] then multiset(ts)[t] else 0
  }

  /** Each column holds each task of its month exactly as often as the task list does. */
  ghost predicate ColumnsCountEach(ts: seq<Task>, estado: string, dim: Dimension, months: seq<int>, columns: seq<seq<Task>>) {
    && |columns| == |months|
    && forall i, t :: 0 <= i < |columns| ==> CountedInColumn(ts, estado, dim, months, columns, i, t)
  }

  /** Each column lists its tasks oldest first. */
  ghost predicate ColumnsOldestFirst(dim: Dimension, columns: seq<seq<Task>>) {
    forall i :: 0 <= i < |columns| ==> SortedBy(columns[i], TimelineRank(dim))
  }

  /** `actualizarLineaTiempo` for the task list `ts`, status filter `estado` and date `dim`. */
  function BuildRoadmap(ts: seq<Task>, estado: string, dim: Dimension): (r: Roadmap)
    ensures r.NoTasks? <==> forall t :: t in ts ==> !Passes(estado, t)
    ensures r.NoDatedTasks? <==>
              (exists t :: t in ts && Passes(estado, t)) && forall t :: t in ts && Passes(estado, t) ==> DateIn(t, dim).None?
    ensures r.Chart? ==>
              && |r.months| >= 3
              && |r.markers| == |r.months|
              && (forall i :: 0 <= i < |r.months| ==> r.months[i] == r.months[0] + i)
    ensures r.Chart? ==> exists t :: DatedIn(ts, estado, dim, t) && MonthOf(DateIn(t, dim).value) == r.months[0] + 1
    ensures r.Chart? ==> exists t :: DatedIn(ts, estado, dim, t) && MonthOf(DateIn(t, dim).value) == r.months[|r.months| - 1] - 1
    ensures r.Chart? ==> EveryDatedTaskShown(ts, estado, dim, r.months, r.columns)
    ensures r.Chart? ==> ColumnsCountEach(ts, estado, dim, r.months, r.columns)
    ensures r.Chart? ==> ColumnsHoldOwnMonth(ts, estado, dim, r.months, r.columns)
    ensures r.Chart? ==> ColumnsOldestFirst(dim, r.columns)
    ensures r.Chart? ==> forall i :: 0 <= i < |r.columns| ==>
              r.columns[i] == Filter(Ordered(ts, estado, dim), InBucket(r.months, dim, i))
    ensures r.Chart? ==> r.boxes == Layout(r.columns) && r.markers == Markers(r.months)
  {
    WorkingSetEmpty(ts, estado, dim);
    if Ordered(ts, estado, dim) == [] then
      NoTasks
    else
      NoDatesIff(ts, estado, dim);
      if DatesOf(Ordered(ts, estado, dim), dim) == [] then
        NoDatedTasks
      else
        DatesWithinRange(ts, estado, dim);
        RangeEndsAreDated(ts, estado, dim);
        ChartFor(ts, estado, dim, Min(DatesOf(Ordered(ts, estado, dim), dim)), Max(DatesOf(Ordered(ts, estado, dim), dim)))
  }

  /** The chart for dated tasks whose dates run from `lo` to `hi`. */
  function ChartFor(ts: seq<Task>, estado: string, dim: Dimension, lo: Day, hi: Day): (r: Roadmap)
    requires lo <= hi
    requires forall t :: DatedIn(ts, estado, dim, t) ==> lo <= DateIn(t, dim).value <= hi
    ensures r.Chart? && r.months == BucketMonths(lo, hi) && |r.markers| == |r.months|
    ensures EveryDatedTaskShown(ts, estado, dim, r.months, r.columns)
    ensures ColumnsCountEach(ts, estado, dim, r.months, r.columns)
    ensures ColumnsHoldOwnMonth(ts, estado, dim, r.months, r.columns)
    ensures ColumnsOldestFirst(dim, r.columns)
    ensures forall i :: 0 <= i < |r.columns| ==> r.columns[i] == Filter(Ordered(ts, estado, dim), InBucket(r.months, dim, i))
    ensures r.boxes == Layout(r.columns) && r.markers == Markers(r.months)
  {
    AllDatedTasksShown(ts, estado, dim, lo, hi);
    AllColumnsHoldOwnMonth(ts, estado, dim, lo, hi);
    AllColumnsCountEach(ts, estado, dim, lo, hi);
    AllColumnsOldestFirst(ts, estado, dim, BucketMonths(lo, hi));
    Chart(BucketMonths(lo, hi), Markers(BucketMonths(lo, hi)),
          Distribute(Ordered(ts, estado, dim), BucketMonths(lo, hi), dim),
          Layout(Distribute(Ordered(ts, estado, dim), BucketMonths(lo, hi), dim)))
  }

  lemma WorkingSetEmpty(ts: seq<Task>, estado: string, dim: Dimension)
    ensures Ordered(ts, estado, dim) == [] <==> forall t :: t in ts ==> !Passes(estado, t)
  {
    if Ordered(ts, estado, dim) != [] {
      assert Ordered(ts, estado, dim)[0] in Ordered(ts, estado, dim);
    }
  }

  lemma NoDatesIff(ts: seq<Task>, estado: string, dim: Dimension)
    ensures DatesOf(Ordered(ts, estado, dim), dim) == [] <==>
              forall t :: t in ts && Passes(estado, t) ==> DateIn(t, dim).None?
  {
  }

  /** Every date of the working set lies between the least and the greatest of them. */
  lemma DatesWithinRange(ts: seq<Task>, estado: string, dim: Dimension)
    requires DatesOf(Ordered(ts, estado, dim), dim) != []
    ensures forall t :: DatedIn(ts, estado, dim, t) ==>
              Min(DatesOf(Ordered(ts, estado, dim), dim)) <= DateIn(t, dim).value <= Max(DatesOf(Ordered(ts, estado, dim), dim))
  {
    var ws := Ordered(ts, estado, dim);
    var ds := DatesOf(ws, dim);
    forall t | DatedIn(ts, estado, dim, t)
      ensures Min(ds) <= DateIn(t, dim).value <= Max(ds)
    {
      InOrdered(ts, estado, dim, t);
      assert DateIn(t, dim).value in ds;
    }
  }

  /** The least and the greatest date of the working set are dates of some of its tasks. */
  lemma RangeEndsAreDated(ts: seq<Task>, estado: string, dim: Dimension)
    requires DatesOf(Ordered(ts, estado, dim), dim) != []
    ensures exists t :: DatedIn(ts, estado, dim, t) && DateIn(t, dim).value == Min(DatesOf(Ordered(ts, estado, dim), dim))
    ensures exists t :: DatedIn(ts, estado, dim, t) && DateIn(t, dim).value == Max(DatesOf(Ordered(ts, estado, dim), dim))
  {
    var ds := DatesOf(Ordered(ts, estado, dim), dim);
    var t :| t in Ordered(ts, estado, dim) && DateIn(t, dim) == Some(Min(ds));
    assert DatedIn(ts, estado, dim, t);
    var u :| u in Ordered(ts, estado, dim) && DateIn(u, dim) == Some(Max(ds));
    assert DatedIn(ts, estado, dim, u);
  }

  lemma InOrdered(ts: seq<Task>, estado: string, dim: Dimension, t: Task)
    requires t in ts && Passes(estado, t)
    ensures t in Ordered(ts, estado, dim)
  {
  }

  lemma MonthWithinBuckets(lo: Day, hi: Day, d: Day)
    requires lo <= d <= hi
    ensures 0 < MonthOf(d) - BucketMonths(lo, hi)[0] < |BucketMonths(lo, hi)| - 1
  {
    var ms := BucketMonths(lo, hi);
    assert ms[|ms| - 1] == ms[0] + (|ms| - 1);
  }

  lemma InColumn(ws: seq<Task>, ms: seq<int>, dim: Dimension, t: Task, i: nat)
    requires |ms| > 0 && i < |ms| && t in ws && Assign(ms, dim, t) == Some(i)
    ensures t in Distribute(ws, ms, dim)[i]
  {
  }

  lemma FromColumn(ws: seq<Task>, ms: seq<int>, dim: Dimension, t: Task, i: nat)
    requires |ms| > 0 && i < |ms| && t in Distribute(ws, ms, dim)[i]
    ensures t in ws && Assign(ms, dim, t) == Some(i)
  {
  }

  /** Every dated task of the working set goes to the column of its own month, an inner one. */
  lemma AllDatedTasksShown(ts: seq<Task>, estado: string, dim: Dimension, lo: Day, hi: Day)
    requires lo <= hi
    requires forall t :: DatedIn(ts, estado, dim, t) ==> lo <= DateIn(t, dim).value <= hi
    ensures EveryDatedTaskShown(ts, estado, dim, BucketMonths(lo, hi), Distribute(Ordered(ts, estado, dim), BucketMonths(lo, hi), dim))
  {
    var ms := BucketMonths(lo, hi);
    var cols := Distribute(Ordered(ts, estado, dim), ms, dim);
    forall t | DatedIn(ts, estado, dim, t)
      ensures ShownInOwnMonth(dim, ms, cols, t)
    {
      TaskShown(ts, estado, dim, lo, hi, t);
    }
  }

  /** A dated task of the working set goes to the column of its own month, an inner one. */
  lemma TaskShown(ts: seq<Task>, estado: string, dim: Dimension, lo: Day, hi: Day, t: Task)
    requires lo <= hi && DatedIn(ts, estado, dim, t) && lo <= DateIn(t, dim).value <= hi
    ensures ShownInOwnMonth(dim, BucketMonths(lo, hi), Distribute(Ordered(ts, estado, dim), BucketMonths(lo, hi), dim), t)
  {
    var ms, ws := BucketMonths(lo, hi), Ordered(ts, estado, dim);
    var k := MonthOf(DateIn(t, dim).value) - ms[0];
    MonthWithinBuckets(lo, hi, DateIn(t, dim).value);
    InOrdered(ts, estado, dim, t);
    AssignToOwnMonth(ms, dim, t);
    InColumn(ws, ms, dim, t, k);
    assert 0 < k < |ms| - 1 && t in Distribute(ws, ms, dim)[k];
  }

  /** A task in column `i` is a dated task of the working set from month `i`. */
  lemma ColumnTaskInOwnMonth(ts: seq<Task>, estado: string, dim: Dimension, lo: Day, hi: Day, i: nat, t: Task)
    requires lo <= hi && i < |BucketMonths(lo, hi)|
    requires forall u :: DatedIn(ts, estado, dim, u) ==> lo <= DateIn(u, dim).value <= hi
    requires t in Distribute(Ordered(ts, estado, dim), BucketMonths(lo, hi), dim)[i]
    ensures DatedIn(ts, estado, dim, t) && MonthOf(DateIn(t, dim).value) == BucketMonths(lo, hi)[i]
  {
    var ms := BucketMonths(lo, hi);
    var ws := Ordered(ts, estado, dim);
    FromColumn(ws, ms, dim, t, i);
    var d := DateIn(t, dim).value;
    MonthWithinBuckets(lo, hi, d);
    AssignToOwnMonth(ms, dim, t);
  }

  lemma AllColumnsHoldOwnMonth(ts: seq<Task>, estado: string, dim: Dimension, lo: Day, hi: Day)
    requires lo <= hi
    requires forall t :: DatedIn(ts, estado, dim, t) ==> lo <= DateIn(t, dim).value <= hi
    ensures ColumnsHoldOwnMonth(ts, estado, dim, BucketMonths(lo, hi), Distribute(Ordered(ts, estado, dim), BucketMonths(lo, hi), dim))
  {
    var ms := BucketMonths(lo, hi);
    var cols := Distribute(Ordered(ts, estado, dim), ms, dim);
    forall i, t | 0 <= i < |cols| && t in cols[i]
      ensures DatedIn(ts, estado, dim, t) && MonthOf(DateIn(t, dim).value) == ms[i]
    {
      ColumnTaskInOwnMonth(ts, estado, dim, lo, hi, i, t);
    }
  }

  lemma AllColumnsOldestFirst(ts: seq<Task>, estado: string, dim: Dimension, ms: seq<int>)
    requires |ms| > 0
    ensures ColumnsOldestFirst(dim, Distribute(Ordered(ts, estado, dim), ms, dim))
  {
    var ws := Ordered(ts, estado, dim);
    var cols := Distribute(ws, ms, dim);
    assert SortedBy(ws, TimelineRank(dim));
    forall i | 0 <= i < |cols|
      ensures SortedBy(cols[i], TimelineRank(dim))
    {
      FilterKeepsSorted(ws, InBucket(ms, dim, i), TimelineRank(dim));
    }
  }

  /** Column `i` holds each task of month `i` as often as the task list does, and no other task. */
  lemma ColumnCount(ts: seq<Task>, estado: string, dim: Dimension, lo: Day, hi: Day, i: nat, t: Task)
    requires lo <= hi && i < |BucketMonths(lo, hi)|
    requires forall u :: DatedIn(ts, estado, dim, u) ==> lo <= DateIn(u, dim).value <= hi
    ensures CountedInColumn(ts, estado, dim, BucketMonths(lo, hi), Distribute(Ordered(ts, estado, dim), BucketMonths(lo, hi), dim), i, t)
  {
    DistributeTotal(Ordered(ts, estado, dim), BucketMonths(lo, hi), dim, i, t);
    OrderedCount(ts, estado, dim, t);
    if DatedIn(ts, estado, dim, t) {
      AssignedHere(lo, hi, dim, t, i);
    } else if Passes(estado, t) && DateIn(t, dim).Some? {
      assert multiset(ts)[t] == 0;
    }
  }

  /** A task dated between `lo` and `hi` is assigned to bucket `i` exactly when bucket `i` is its month. */
  lemma AssignedHere(lo: Day, hi: Day, dim: Dimension, t: Task, i: nat)
    requires lo <= hi && i < |BucketMonths(lo, hi)|
    requires DateIn(t, dim).Some? && lo <= DateIn(t, dim).value <= hi
    ensures Assign(BucketMonths(lo, hi), dim, t) == Some(i) <==> MonthOf(DateIn(t, dim).value) == BucketMonths(lo, hi)[i]
  {
    MonthWithinBuckets(lo, hi, DateIn(t, dim).value);
    AssignToOwnMonth(BucketMonths(lo, hi), dim, t);
  }

  /** The sorted working set holds each task of the selected status as often as the task list does. */
  lemma OrderedCount(ts: seq<Task>, estado: string, dim: Dimension, t: Task)
    ensures multiset(Ordered(ts, estado, dim))[t] == if Passes(estado, t) then multiset(ts)[t] else 0
  {
    FilterMultiset(ts, PassesOf(estado));
    assert PassesOf(estado)(t) == Passes(estado, t);
  }

  lemma AllColumnsCountEach(ts: seq<Task>, estado: string, dim: Dimension, lo: Day, hi: Day)
    requires lo <= hi
    requires forall t :: DatedIn(ts, estado, dim, t) ==> lo <= DateIn(t, dim).value <= hi
    ensures ColumnsCountEach(ts, estado, dim, BucketMonths(lo, hi), Distribute(Ordered(ts, estado, dim), BucketMonths(lo, hi), dim))
  {
    var ms := BucketMonths(lo, hi);
    var cols := Distribute(Ordered(ts, estado, dim), ms, dim);
    forall i, t | 0 <= i < |cols|
      ensures CountedInColumn(ts, estado, dim, ms, cols, i, t)
    {
      ColumnCount(ts, estado, dim, lo, hi, i, t);
    }
  }
}
