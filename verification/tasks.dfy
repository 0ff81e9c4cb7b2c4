/**
  The task record the backend stores and the front end receives as JSON
  (`Tarea` and `Delegacion` in app.py). Date columns are day ordinals; the
  datetime columns are instants in seconds since 1970-01-01T00:00:00.
 */
module Tasks {
  import opened Wrappers
  import opened Calendar

  /** One hand-over of a task from one person to another. */
  datatype Delegation = Delegation(
    id: int,
    delegadoDe: string,
    delegadoA: string,
    /** When the hand-over was recorded, in seconds since 1970-01-01T00:00:00. */
    fechaDelegacion: int,
    motivo: Option<string>,
    observaciones: Option<string>
  )

  /** A task. Nullable columns are `Option`s; `fechaCreacion` is an instant in seconds. */
  datatype Task = Task(
    id: int,
    numeroDf: Option<string>,
    actividadPredecesora: Option<string>,
    asuntoTema: Option<string>,
    tarea: string,
    encargadoActual: string,
    fechaInicio: Option<Day>,
    fechaFin: Option<Day>,
    estado: string,
    dias: Option<int>,
    valor: Option<string>,
    evidencia: Option<string>,
    observaciones: Option<string>,
    fechaCreacion: Option<int>,
    delegaciones: seq<Delegation>
  )

  /** The three dates a task can be ordered or placed on a timeline by. */
  datatype Dimension = Creacion | Inicio | Fin

  /** Seconds in a day. */
  const SecondsPerDay: int := 86400

  /** The day an instant falls on; `/` rounds down, so an instant before 1970 falls on a negative day. */
  function DayOf(s: int): Day {
    s / SecondsPerDay
  }

  /** The instant a date-only value stands for when compared (`new Date('YYYY-MM-DD')`): its midnight. */
  function Midnight(d: Day): (s: int)
    ensures DayOf(s) == d
  {
    d * SecondsPerDay
  }

  /** The instant the front end compares in dimension `dim`, if the task has that date. */
  function InstantIn(t: Task, dim: Dimension): Option<int> {
    match dim
    case Creacion => t.fechaCreacion
    case Inicio => if t.fechaInicio.Some? then Some(Midnight(t.fechaInicio.value)) else None
    case Fin => if t.fechaFin.Some? then Some(Midnight(t.fechaFin.value)) else None
  }

  /** The day of the task's date in dimension `dim`, if it has one. */
  function DateIn(t: Task, dim: Dimension): (r: Option<Day>)
    ensures r.Some? <==> InstantIn(t, dim).Some?
    ensures r.Some? ==> r.value == DayOf(InstantIn(t, dim).value)
  {
    match dim
    case Creacion => if t.fechaCreacion.Some? then Some(DayOf(t.fechaCreacion.value)) else None
    case Inicio => t.fechaInicio
    case Fin => t.fechaFin
  }
}
