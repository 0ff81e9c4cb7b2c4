/**
  The task list's search, status and assignee filters, its optional date
  sort (`filtrarTareas`) and the assignee drop-down (`actualizarFiltros`).
 */
module FilterSort {
  import opened Wrappers
  import opened Calendar
  import opened Text
  import opened Seqs
  import opened Tasks

  /** The three filter inputs; the empty string means "no filter". */
  datatype Criteria = Criteria(query: string, estado: string, encargado: string)

  /**
    One text field matched against the lower-cased query `lq`: a missing or
    empty field is falsy and never matches.
   */
  predicate FieldMatches(field: Option<string>, lq: string) {
    field.Some? && field.value != [] && Includes(Lower(field.value), lq)
  }

  /** The search-box test: an empty query passes everything. */
  predicate TextMatches(query: string, t: Task) {
    var lq := Lower(query);
    lq == []
    || FieldMatches(Some(t.tarea), lq)
    || FieldMatches(t.asuntoTema, lq)
    || FieldMatches(Some(t.encargadoActual), lq)
  }

  /** The text fields the search box looks at, leaving out a missing subject. */
  function SearchedFields(t: Task): seq<string> {
    [t.tarea, t.encargadoActual] + (if t.asuntoTema.Some? then [t.asuntoTema.value] else [])
  }

  /**
    The search test, stated without the truthiness guards: a task passes iff
    the query is empty or its lower-cased form occurs in the lower-cased form
    of one of the searched fields.
   */
  lemma TextMatchesIff(query: string, t: Task)
    ensures TextMatches(query, t) <==>
              query == [] || exists f, j :: f in SearchedFields(t) && OccursAt(Lower(f), Lower(query), j)
  {
    var lq := Lower(query);
    var fs := SearchedFields(t);
    if query != [] {
      if exists f, j :: f in fs && OccursAt(Lower(f), lq, j) {
        var f, j :| f in fs && OccursAt(Lower(f), lq, j);
        assert f != [];
        if t.asuntoTema.Some? && f == t.asuntoTema.value {
          assert FieldMatches(t.asuntoTema, lq);
        } else if f == t.tarea {
          assert FieldMatches(Some(t.tarea), lq);
        } else {
          assert f == t.encargadoActual;
          assert FieldMatches(Some(t.encargadoActual), lq);
        }
      }
      if TextMatches(query, t) {
        if FieldMatches(Some(t.tarea), lq) {
          assert t.tarea in fs;
        } else if FieldMatches(t.asuntoTema, lq) {
          assert t.asuntoTema.value in fs;
        } else {
          assert t.encargadoActual in fs;
        }
      }
    }
  }

  /** All three filters together. */
  predicate Matches(c: Criteria, t: Task) {
    TextMatches(c.query, t)
    && (c.estado == [] || t.estado == c.estado)
    && (c.encargado == [] || t.encargadoActual == c.encargado)
  }

  function MatchesOf(c: Criteria): Task -> bool {
    t => Matches(c, t)
  }

  /** The date-sort selector: none, or one of the six (dimension, direction) options. */
  datatype SortOrder = Unsorted | Asc(dim: Dimension) | Desc(dim: Dimension)

  /**
    The instant a task is compared by: its own date in the selected dimension,
    or, when it has none, 9999-12-31 for ascending end date and 1970-01-01
    (`new Date(0)`) otherwise.
   */
  function SortInstant(o: SortOrder, t: Task): int
    requires !o.Unsorted?
  {
    match InstantIn(t, o.dim)
    case Some(s) => s
    case None => if o == Asc(Fin) then Midnight(FarFuture) else Midnight(Epoch)
  }

  /** The comparator as a key: descending orders compare the negated instant. */
  function Rank(o: SortOrder): Task -> int {
    t => if o.Unsorted? then 0 else if o.Asc? then SortInstant(o, t) else -SortInstant(o, t)
  }

  /** `filtrarTareas`: the matching tasks, then, when an order is chosen, a stable sort on it. */
  function FilterTasks(ts: seq<Task>, c: Criteria, o: SortOrder): (r: seq<Task>)
    ensures forall t :: multiset(r)[t] == if Matches(c, t) then multiset(ts)[t] else 0
    ensures o.Unsorted? ==> IsSubsequence(r, ts)
    ensures !o.Unsorted? ==> SortedBy(r, Rank(o))
    ensures forall k :: TieClass(r, Rank(o), k) == Filter(TieClass(ts, Rank(o), k), MatchesOf(c))
  {
    var kept := Filter(ts, MatchesOf(c));
    FilterMultiset(ts, MatchesOf(c));
    forall k
      ensures TieClass(kept, Rank(o), k) == Filter(TieClass(ts, Rank(o), k), MatchesOf(c))
    {
      TieClassOfFilter(ts, MatchesOf(c), Rank(o), k);
    }
    if o.Unsorted? then
      FilterIsSubsequence(ts, MatchesOf(c));
      kept
    else
      SortBy(kept, Rank(o))
  }

  /** A chosen order puts the result in non-decreasing (ascending) or non-increasing (descending) sort instant. */
  lemma FilterTasksOrdered(ts: seq<Task>, c: Criteria, o: SortOrder)
    ensures o.Asc? ==> forall i, j :: 0 <= i < j < |FilterTasks(ts, c, o)| ==>
              SortInstant(o, FilterTasks(ts, c, o)[i]) <= SortInstant(o, FilterTasks(ts, c, o)[j])
    ensures o.Desc? ==> forall i, j :: 0 <= i < j < |FilterTasks(ts, c, o)| ==>
              SortInstant(o, FilterTasks(ts, c, o)[i]) >= SortInstant(o, FilterTasks(ts, c, o)[j])
  {
    if !o.Unsorted? {
      RankOrder(FilterTasks(ts, c, o), o);
    }
  }

  /** A sequence sorted on `Rank(o)` is in the order `o` asks for. */
  lemma RankOrder(r: seq<Task>, o: SortOrder)
    requires !o.Unsorted? && SortedBy(r, Rank(o))
    ensures o.Asc? ==> forall i, j :: 0 <= i < j < |r| ==> SortInstant(o, r[i]) <= SortInstant(o, r[j])
    ensures o.Desc? ==> forall i, j :: 0 <= i < j < |r| ==> SortInstant(o, r[i]) >= SortInstant(o, r[j])
  {
    forall i, j | 0 <= i < j < |r|
      ensures Rank(o)(r[i]) <= Rank(o)(r[j])
    {
    }
  }

  /**
    Under ascending end date a task without an end date follows a task with one
    unless that end date is 9999-12-31 or later.
   */
  lemma MissingEndSortsLast(ts: seq<Task>, c: Criteria, i: int, j: int)
    requires 0 <= i < j < |FilterTasks(ts, c, Asc(Fin))|
    requires FilterTasks(ts, c, Asc(Fin))[i].fechaFin.None?
    requires FilterTasks(ts, c, Asc(Fin))[j].fechaFin.Some?
    ensures FilterTasks(ts, c, Asc(Fin))[j].fechaFin.value >= FarFuture
  {
    FilterTasksOrdered(ts, c, Asc(Fin));
  }

  /**
    Under every other date order a missing date stands for 1970-01-01T00:00:00:
    it is never placed on the "later" side of an instant after it.
   */
  lemma MissingDateActsAsEpoch(ts: seq<Task>, c: Criteria, o: SortOrder, i: int, j: int)
    requires !o.Unsorted? && o != Asc(Fin)
    requires 0 <= i < j < |FilterTasks(ts, c, o)|
    requires var r := FilterTasks(ts, c, o);
      if o.Asc? then InstantIn(r[i], o.dim).Some? && InstantIn(r[j], o.dim).None?
      else InstantIn(r[i], o.dim).None? && InstantIn(r[j], o.dim).Some?
    ensures var r := FilterTasks(ts, c, o);
      (if o.Asc? then InstantIn(r[i], o.dim).value else InstantIn(r[j], o.dim).value) <= Midnight(Epoch)
  {
    FilterTasksOrdered(ts, c, o);
  }

  /** Applying the same filters and order again changes nothing. */
  lemma FilterTasksIdempotent(ts: seq<Task>, c: Criteria, o: SortOrder)
    ensures FilterTasks(FilterTasks(ts, c, o), c, o) == FilterTasks(ts, c, o)
  {
    var r := FilterTasks(ts, c, o);
    assert forall t :: t in r ==> Matches(c, t) by {
      forall t | t in r
        ensures Matches(c, t)
      {
        assert multiset(r)[t] > 0;
      }
    }
    FilterKeepsAll(r, MatchesOf(c));
    if !o.Unsorted? {
      assert SortedBy(r, Rank(o));
      SortBySortedIsIdentity(r, Rank(o));
    }
  }

  /** The column `encargado_actual` of a task list. */
  function Encargados(ts: seq<Task>): (names: seq<string>)
    ensures |names| == |ts|
    ensures forall i :: 0 <= i < |ts| ==> names[i] == ts[i].encargadoActual
  {
    seq(|ts|, i requires 0 <= i < |ts| => ts[i].encargadoActual)
  }

  /** The first index at which `x` occurs in `s`. */
  function FirstIndex(s: seq<string>, x: string): (k: nat)
    requires x in s
    ensures k < |s| && s[k] == x
    ensures forall j :: 0 <= j < k ==> s[j] != x
  {
    if s[0] == x then 0 else 1 + FirstIndex(s[1..], x)
  }

  /** Appending a name does not move the first occurrence of the names already present. */
  lemma FirstIndexOfPrefix(init: seq<string>, last: string)
    ensures forall x :: x in init ==> FirstIndex(init + [last], x) == FirstIndex(init, x)
  {
    forall x | x in init
      ensures FirstIndex(init + [last], x) == FirstIndex(init, x)
    {
      var b := FirstIndex(init, x);
      assert (init + [last])[b] == x;
    }
  }

  /**
    `[...new Set(names.filter(Boolean))]`: the distinct non-empty names, each at
    the place it first appears.
   */
  function DistinctNonEmpty(names: seq<string>): (r: seq<string>)
    ensures forall x :: x in r <==> x in names && x != []
    ensures forall i, j :: 0 <= i < j < |r| ==> r[i] != r[j]
    ensures forall i, j :: 0 <= i < j < |r| ==> FirstIndex(names, r[i]) < FirstIndex(names, r[j])
    decreases |names|
  {
    if names == [] then []
    else
      var init, last := names[..|names| - 1], names[|names| - 1];
      var d := DistinctNonEmpty(init);
      assert names == init + [last];
      FirstIndexOfPrefix(init, last);
      if last == [] || last in d then d
      else
        assert last !in init;
        assert FirstIndex(names, last) == |init|;
        d + [last]
  }

  /** The assignee drop-down: the distinct non-empty assignees, in order of first appearance. */
  function Assignees(ts: seq<Task>): (r: seq<string>)
    ensures forall x :: x in r <==> x != [] && x in Encargados(ts)
    ensures forall x :: x in r <==> x != [] && exists t :: t in ts && t.encargadoActual == x
    ensures forall i, j :: 0 <= i < j < |r| ==> r[i] != r[j]
    ensures forall i, j :: 0 <= i < j < |r| ==>
              FirstIndex(Encargados(ts), r[i]) < FirstIndex(Encargados(ts), r[j])
  {
    var names := Encargados(ts);
    assert forall x :: x in names <==> exists t :: t in ts && t.encargadoActual == x by {
      forall x
        ensures x in names <==> exists t :: t in ts && t.encargadoActual == x
      {
        if x in names {
          var i :| 0 <= i < |names| && names[i] == x;
          assert ts[i] in ts;
        }
        if exists t :: t in ts && t.encargadoActual == x {
          var t :| t in ts && t.encargadoActual == x;
          var i :| 0 <= i < |ts| && ts[i] == t;
          assert names[i] == x;
        }
      }
    }
    DistinctNonEmpty(names)
  }
}
