/**
  The delegation form of the front end (`guardarDelegacion`): it refuses to
  hand a task to the person who already holds it, and otherwise builds the
  request body from the four inputs.
 */
module DelegationForm {
  import opened Wrappers
  import opened Tasks
  import opened Backend

  /** What submitting the form does: warn about a self-delegation, or send a request. */
  datatype Submission = SamePerson | Request(body: DelegationPayload)

  /** Submitting the form with inputs `de`, `a`, `motivo` and `observaciones`. */
  function SubmitDelegation(de: string, a: string, motivo: string, observaciones: string): (s: Submission)
    ensures s.SamePerson? <==> de == a
    ensures s.Request? ==> s.body.delegadoDe == Present(de) && s.body.delegadoA == Present(a)
    ensures s.Request? ==> s.body.motivo == Present(Some(motivo))
    ensures s.Request? ==> s.body.observaciones == Present(Some(observaciones))
  {
    if de == a then SamePerson
    else Request(DelegationPayload(Present(de), Present(a), Present(Some(motivo)), Present(Some(observaciones))))
  }

  /**
    A request the form sends always succeeds on the backend, and the record
    it appends hands the task between two different people.
   */
  lemma FormDelegationsAreBetweenTwoPeople(t: Task, de: string, a: string, motivo: string, observaciones: string,
                                           newId: int, at: int)
    requires SubmitDelegation(de, a, motivo, observaciones).Request?
    ensures DelegateTask(t, SubmitDelegation(de, a, motivo, observaciones).body, newId, at).Ok?
    ensures DelegateTask(t, SubmitDelegation(de, a, motivo, observaciones).body, newId, at).value.encargadoActual == a
    ensures DelegateTask(t, SubmitDelegation(de, a, motivo, observaciones).body, newId, at).value.delegaciones[|t.delegaciones|].delegadoDe !=
            DelegateTask(t, SubmitDelegation(de, a, motivo, observaciones).body, newId, at).value.delegaciones[|t.delegaciones|].delegadoA
  {
  }
}
