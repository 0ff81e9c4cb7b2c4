/**
  The backend's task transitions (app.py): creating a task from a request
  payload, updating it from a partial payload, delegating it to someone else,
  and listing its delegation history. The database row is the `Task` value,
  and the clock, the new row id and the request body are parameters.
 */
module Backend {
  import opened Wrappers
  import opened Calendar
  import opened Tasks
  import Seqs

  /** A key of the JSON payload: missing, or present with its value. */
  datatype Field<T> = Absent | Present(value: T) {

    /** `data.get(key, default)`. */
    function Or(default: T): T {
      match this
      case Present(v) => v
      case Absent => default
    }
  }

  /**
    A date as the payload carries it: `null` or `""`, a text that
    `strptime(…, '%Y-%m-%d')` turns into a day, or a text it rejects.
   */
  datatype DateText = Blank | Malformed | Date(day: Day)

  /** Why a handler fails before committing: a date `strptime` refuses, or a key it indexes is missing. */
  datatype Failure = BadDate | MissingKey

  /** The body of a create or update request; `Option` fields may be JSON `null`. */
  datatype Payload = Payload(
    numeroDf: Field<Option<string>>,
    actividadPredecesora: Field<Option<string>>,
    asuntoTema: Field<Option<string>>,
    tarea: Field<string>,
    encargadoActual: Field<string>,
    fechaInicio: Field<DateText>,
    fechaFin: Field<DateText>,
    estado: Field<string>,
    valor: Field<Option<string>>,
    evidencia: Field<Option<string>>,
    observaciones: Field<Option<string>>
  )

  /** A payload with no keys at all. */
  const EmptyPayload: Payload :=
    Payload(Absent, Absent, Absent, Absent, Absent, Absent, Absent, Absent, Absent, Absent, Absent)

  /** The columns the database fills for every row: `fecha_inicio` is NOT NULL and `fecha_creacion` has a default. */
  predicate Stored(t: Task) {
    t.fechaInicio.Some? && t.fechaCreacion.Some?
  }

  /** `if data.get(key)`: the key is present with a value that is neither `null` nor `""`. */
  predicate Given(f: Field<DateText>) {
    f.Present? && !f.value.Blank?
  }

  /** `strptime(text, '%Y-%m-%d').date()`, which raises on anything but a well-formed date. */
  function Parse(text: DateText): (r: Result<Day, Failure>)
    ensures r.Ok? <==> text.Date?
    ensures r.Ok? ==> r.value == text.day
  {
    match text
    case Date(d) => Ok(d)
    case _ => Err(BadDate)
  }

  /** `(fin - inicio).days`. */
  function DaysBetween(inicio: Day, fin: Day): int {
    fin - inicio
  }

  /** A nullable column of a new row: the payload's value when its key is present, else `NULL`. */
  ghost predicate FromPayload<T>(f: Field<Option<T>>, stored: Option<T>) {
    if f.Present? then stored == f.value else stored.None?
  }

  /**
    `crear_tarea`: a missing start date becomes `today`; `dias` is computed
    only when both dates are given; `estado` defaults to 'Pendiente' and the
    text columns `tarea` and `encargado_actual` to the empty string.
   */
  function CreateTask(p: Payload, today: Day, newId: int, createdAt: int): (r: Result<Task, Failure>)
    ensures r.Err? <==> p.fechaInicio == Present(Malformed) || p.fechaFin == Present(Malformed)
    ensures r.Ok? ==> Stored(r.value) && r.value.id == newId && r.value.delegaciones == []
    ensures r.Ok? ==> r.value.fechaInicio == Some(if Given(p.fechaInicio) then p.fechaInicio.value.day else today)
    ensures r.Ok? ==> r.value.fechaFin == (if Given(p.fechaFin) then Some(p.fechaFin.value.day) else None)
    ensures r.Ok? ==> (r.value.dias.Some? <==> Given(p.fechaInicio) && Given(p.fechaFin))
    ensures r.Ok? && r.value.dias.Some? ==>
              r.value.fechaFin.Some? && r.value.dias.value == r.value.fechaFin.value - r.value.fechaInicio.value
    ensures r.Ok? ==> r.value.fechaCreacion == Some(createdAt)
    ensures r.Ok? && p.estado.Absent? ==> r.value.estado == "Pendiente"
    ensures r.Ok? && p.tarea.Absent? ==> r.value.tarea == []
    ensures r.Ok? && p.encargadoActual.Absent? ==> r.value.encargadoActual == []
    ensures r.Ok? && p.estado.Present? ==> r.value.estado == p.estado.value
    ensures r.Ok? && p.tarea.Present? ==> r.value.tarea == p.tarea.value
    ensures r.Ok? && p.encargadoActual.Present? ==> r.value.encargadoActual == p.encargadoActual.value
    ensures r.Ok? ==> FromPayload(p.numeroDf, r.value.numeroDf)
    ensures r.Ok? ==> FromPayload(p.actividadPredecesora, r.value.actividadPredecesora)
    ensures r.Ok? ==> FromPayload(p.asuntoTema, r.value.asuntoTema)
    ensures r.Ok? ==> FromPayload(p.valor, r.value.valor)
    ensures r.Ok? ==> FromPayload(p.evidencia, r.value.evidencia)
    ensures r.Ok? ==> FromPayload(p.observaciones, r.value.observaciones)
  {
    var started: Result<(Day, Option<int>), Failure> :=
      if Given(p.fechaInicio) && Given(p.fechaFin) then
        match (Parse(p.fechaInicio.value), Parse(p.fechaFin.value))
        case (Ok(i), Ok(f)) => Ok((i, Some(DaysBetween(i, f))))
        case _ => Err(BadDate)
      else if Given(p.fechaInicio) then
        match Parse(p.fechaInicio.value)
        case Ok(i) => Ok((i, None))
        case Err(e) => Err(e)
      else Ok((today, None));
    var ended: Result<Option<Day>, Failure> :=
      if Given(p.fechaFin) then
        match Parse(p.fechaFin.value)
        case Ok(f) => Ok(Some(f))
        case Err(e) => Err(e)
      else Ok(None);
    match (started, ended)
    case (Ok((inicio, dias)), Ok(fin)) =>
      Ok(Task(
        id := newId,
        numeroDf := p.numeroDf.Or(None),
        actividadPredecesora := p.actividadPredecesora.Or(None),
        asuntoTema := p.asuntoTema.Or(None),
        tarea := p.tarea.Or(""),
        encargadoActual := p.encargadoActual.Or(""),
        fechaInicio := Some(inicio),
        fechaFin := fin,
        estado := p.estado.Or("Pendiente"),
        dias := dias,
        valor := p.valor.Or(None),
        evidencia := p.evidencia.Or(None),
        observaciones := p.observaciones.Or(None),
        fechaCreacion := Some(createdAt),
        delegaciones := []))
    case _ => Err(BadDate)
  }

  /** The new start date of an update: a present `fecha_inicio` must parse, even when empty. */
  function NewStart(f: Field<DateText>, current: Option<Day>): (r: Result<Option<Day>, Failure>)
    ensures r.Err? <==> f.Present? && !f.value.Date?
    ensures r.Ok? && f.Absent? ==> r.value == current
    ensures r.Ok? && f.Present? ==> r.value == Some(f.value.day)
  {
    match f
    case Absent => Ok(current)
    case Present(text) =>
      match Parse(text)
      case Ok(d) => Ok(Some(d))
      case Err(e) => Err(e)
  }

  /** The new end date of an update: an empty `fecha_fin` clears it, any other text must parse. */
  function NewEnd(f: Field<DateText>, current: Option<Day>): (r: Result<Option<Day>, Failure>)
    ensures r.Err? <==> f == Present(Malformed)
    ensures r.Ok? && f.Absent? ==> r.value == current
    ensures r.Ok? && f == Present(Blank) ==> r.value == None
    ensures r.Ok? && f.Present? && f.value.Date? ==> r.value == Some(f.value.day)
  {
    match f
    case Absent => Ok(current)
    case Present(Blank) => Ok(None)
    case Present(text) =>
      match Parse(text)
      case Ok(d) => Ok(Some(d))
      case Err(e) => Err(e)
  }

  /** The `dias` recomputation that ends every update. */
  function RecomputedDias(inicio: Option<Day>, fin: Option<Day>, today: Day, previous: Option<int>): Option<int> {
    if inicio.Some? && fin.Some? then Some(DaysBetween(inicio.value, fin.value))
    else if inicio.Some? then Some(DaysBetween(inicio.value, today))
    else previous
  }

  /** The value a column takes when the payload may carry its key. */
  ghost predicate Follows<T>(f: Field<T>, before: T, after: T) {
    if f.Present? then after == f.value else after == before
  }

  /**
    `actualizar_tarea`: every column whose key is in the payload takes the
    payload's value, every other column keeps its value, and `dias` is then
    recomputed from the resulting dates.
   */
  function UpdateTask(t: Task, p: Payload, today: Day): (r: Result<Task, Failure>)
    ensures r.Err? <==> (p.fechaInicio.Present? && !p.fechaInicio.value.Date?) || p.fechaFin == Present(Malformed)
    ensures r.Ok? ==> r.value.id == t.id && r.value.fechaCreacion == t.fechaCreacion
    ensures r.Ok? ==> r.value.delegaciones == t.delegaciones
    ensures r.Ok? ==> Follows(p.numeroDf, t.numeroDf, r.value.numeroDf)
    ensures r.Ok? ==> Follows(p.actividadPredecesora, t.actividadPredecesora, r.value.actividadPredecesora)
    ensures r.Ok? ==> Follows(p.asuntoTema, t.asuntoTema, r.value.asuntoTema)
    ensures r.Ok? ==> Follows(p.tarea, t.tarea, r.value.tarea)
    ensures r.Ok? ==> Follows(p.encargadoActual, t.encargadoActual, r.value.encargadoActual)
    ensures r.Ok? ==> Follows(p.estado, t.estado, r.value.estado)
    ensures r.Ok? ==> Follows(p.valor, t.valor, r.value.valor)
    ensures r.Ok? ==> Follows(p.evidencia, t.evidencia, r.value.evidencia)
    ensures r.Ok? ==> Follows(p.observaciones, t.observaciones, r.value.observaciones)
    ensures r.Ok? && p.fechaInicio.Absent? ==> r.value.fechaInicio == t.fechaInicio
    ensures r.Ok? && p.fechaInicio.Present? ==> r.value.fechaInicio == Some(p.fechaInicio.value.day)
    ensures r.Ok? && p.fechaFin.Absent? ==> r.value.fechaFin == t.fechaFin
    ensures r.Ok? && p.fechaFin == Present(Blank) ==> r.value.fechaFin == None
    ensures r.Ok? && p.fechaFin.Present? && p.fechaFin.value.Date? ==> r.value.fechaFin == Some(p.fechaFin.value.day)
    ensures r.Ok? && r.value.fechaInicio.Some? && r.value.fechaFin.Some? ==>
              r.value.dias == Some(r.value.fechaFin.value - r.value.fechaInicio.value)
    ensures r.Ok? && r.value.fechaInicio.Some? && r.value.fechaFin.None? ==>
              r.value.dias == Some(today - r.value.fechaInicio.value)
    ensures r.Ok? && r.value.fechaInicio.None? ==> r.value.dias == t.dias
  {
    match (NewStart(p.fechaInicio, t.fechaInicio), NewEnd(p.fechaFin, t.fechaFin))
    case (Ok(inicio), Ok(fin)) =>
      Ok(t.(
        numeroDf := p.numeroDf.Or(t.numeroDf),
        actividadPredecesora := p.actividadPredecesora.Or(t.actividadPredecesora),
        asuntoTema := p.asuntoTema.Or(t.asuntoTema),
        tarea := p.tarea.Or(t.tarea),
        encargadoActual := p.encargadoActual.Or(t.encargadoActual),
        fechaInicio := inicio,
        fechaFin := fin,
        estado := p.estado.Or(t.estado),
        valor := p.valor.Or(t.valor),
        evidencia := p.evidencia.Or(t.evidencia),
        observaciones := p.observaciones.Or(t.observaciones),
        dias := RecomputedDias(inicio, fin, today, t.dias)))
    case _ => Err(BadDate)
  }

  /** An update never loses the columns the database always fills. */
  lemma UpdatePreservesStored(t: Task, p: Payload, today: Day)
    requires Stored(t) && UpdateTask(t, p, today).Ok?
    ensures Stored(UpdateTask(t, p, today).value)
  {
  }

  /** After an update of a stored task `dias` is always set: to the task's span, or to its age without an end date. */
  lemma UpdateAlwaysSetsDias(t: Task, p: Payload, today: Day)
    requires Stored(t) && UpdateTask(t, p, today).Ok?
    ensures UpdateTask(t, p, today).value.dias.Some?
  {
  }

  /** An empty payload changes nothing but `dias`, which it recomputes. */
  lemma UpdateWithEmptyPayload(t: Task, today: Day)
    requires Stored(t)
    ensures UpdateTask(t, EmptyPayload, today) ==
              Ok(t.(dias := Some(if t.fechaFin.Some? then t.fechaFin.value - t.fechaInicio.value
                                 else today - t.fechaInicio.value)))
  {
  }

  /** Sending the same update twice on the same day has the effect of sending it once. */
  lemma UpdateIdempotent(t: Task, p: Payload, today: Day)
    requires UpdateTask(t, p, today).Ok?
    ensures UpdateTask(UpdateTask(t, p, today).value, p, today) == UpdateTask(t, p, today)
  {
  }

  /**
    Creating with only an end date stores both dates (the start is today)
    but leaves `dias` unset; the next update of any kind sets it.
   */
  lemma CreateWithoutStartLeavesDiasUnset(p: Payload, today: Day, newId: int, createdAt: int, u: Payload)
    requires p.fechaInicio.Absent? && p.fechaFin.Present? && p.fechaFin.value.Date?
    ensures CreateTask(p, today, newId, createdAt).Ok?
    ensures CreateTask(p, today, newId, createdAt).value.fechaFin.Some?
    ensures CreateTask(p, today, newId, createdAt).value.dias == None
    ensures UpdateTask(CreateTask(p, today, newId, createdAt).value, u, today).Ok? ==>
              UpdateTask(CreateTask(p, today, newId, createdAt).value, u, today).value.dias.Some?
  {
    var t := CreateTask(p, today, newId, createdAt).value;
    if UpdateTask(t, u, today).Ok? {
      UpdateAlwaysSetsDias(t, u, today);
    }
  }

  /** The body of a delegation request. */
  datatype DelegationPayload = DelegationPayload(
    delegadoDe: Field<string>,
    delegadoA: Field<string>,
    motivo: Field<Option<string>>,
    observaciones: Field<Option<string>>
  )

  /** The delegation record a request appends, once both names are known. */
  function DelegationRecord(p: DelegationPayload, newId: int, at: int): Delegation
    requires p.delegadoDe.Present? && p.delegadoA.Present?
  {
    Delegation(newId, p.delegadoDe.value, p.delegadoA.value, at,
               p.motivo.Or(Some("")), p.observaciones.Or(Some("")))
  }

  /**
    `delegar_tarea`: the task's assignee becomes `delegado_a`, whether or not
    it was delegated before, and exactly one record is appended to its history.
    `data['delegado_a']` and `data['delegado_de']` are indexed, so either
    missing fails the request.
   */
  function DelegateTask(t: Task, p: DelegationPayload, newId: int, at: int): (r: Result<Task, Failure>)
    ensures r.Err? <==> p.delegadoDe.Absent? || p.delegadoA.Absent?
    ensures r.Ok? ==> r.value.encargadoActual == p.delegadoA.value
    ensures r.Ok? ==> |r.value.delegaciones| == |t.delegaciones| + 1
    ensures r.Ok? ==> r.value.delegaciones[..|t.delegaciones|] == t.delegaciones
    ensures r.Ok? ==> r.value.delegaciones[|t.delegaciones|] == DelegationRecord(p, newId, at)
    ensures r.Ok? ==> r.value.(encargadoActual := t.encargadoActual, delegaciones := t.delegaciones) == t
  {
    if p.delegadoA.Absent? then Err(MissingKey)
    else
      // Both branches on an earlier delegation assign `delegado_a` alike.
      if p.delegadoDe.Absent? then Err(MissingKey)
      else
        Ok(t.(encargadoActual := p.delegadoA.value,
              delegaciones := t.delegaciones + [DelegationRecord(p, newId, at)]))
  }

  /** The record a delegation appends carries the given names, and `motivo` defaults to the empty text. */
  lemma DelegationRecordFields(p: DelegationPayload, newId: int, at: int)
    requires p.delegadoDe.Present? && p.delegadoA.Present?
    ensures DelegationRecord(p, newId, at).delegadoDe == p.delegadoDe.value
    ensures DelegationRecord(p, newId, at).delegadoA == p.delegadoA.value
    ensures DelegationRecord(p, newId, at).fechaDelegacion == at
    ensures p.motivo.Absent? ==> DelegationRecord(p, newId, at).motivo == Some("")
    ensures p.observaciones.Absent? ==> DelegationRecord(p, newId, at).observaciones == Some("")
  {
  }

  /** A delegation never loses the columns the database always fills. */
  lemma DelegatePreservesStored(t: Task, p: DelegationPayload, newId: int, at: int)
    requires Stored(t) && DelegateTask(t, p, newId, at).Ok?
    ensures Stored(DelegateTask(t, p, newId, at).value)
  {
  }

  /** The sort key of the history: later delegations first. */
  function NewestFirst(d: Delegation): int {
    -d.fechaDelegacion
  }

  /** `get_delegaciones`: the task's delegations ordered by `fecha_delegacion`, newest first. */
  function History(t: Task): (h: seq<Delegation>)
    ensures multiset(h) == multiset(t.delegaciones)
    ensures forall i, j :: 0 <= i < j < |h| ==> h[i].fechaDelegacion >= h[j].fechaDelegacion
  {
    var h := Seqs.SortBy(t.delegaciones, NewestFirst);
    assert forall i, j :: 0 <= i < j < |h| ==> NewestFirst(h[i]) <= NewestFirst(h[j]);
    h
  }

  /** A delegation recorded after every earlier one heads the history. */
  lemma NewestDelegationFirst(t: Task, p: DelegationPayload, newId: int, at: int)
    requires DelegateTask(t, p, newId, at).Ok?
    requires forall d :: d in t.delegaciones ==> d.fechaDelegacion < at
    ensures |History(DelegateTask(t, p, newId, at).value)| > 0
    ensures History(DelegateTask(t, p, newId, at).value)[0] == DelegationRecord(p, newId, at)
  {
    var u := DelegateTask(t, p, newId, at).value;
    var n := DelegationRecord(p, newId, at);
    var h := History(u);
    assert u.delegaciones == t.delegaciones + [n];
    assert n in multiset(u.delegaciones);
    assert n in multiset(h);
    var k :| 0 <= k < |h| && h[k] == n;
    assert h[0].fechaDelegacion >= at;
    assert h[0] in multiset(u.delegaciones);
    if h[0] in t.delegaciones {
      assert false;
    }
  }
}
