/** `checkIncidentPresence(model, query)`: look an incident up and fail when
    nothing is found. The model's `findOne` is a parameter: a function from a
    query to the outcome of the lookup (an error, nothing, or a document). */
module IncidentPresence {
  import opened Common

  const NotFoundMessage: string := "Incident not found."

  /** The lookup is asked the query exactly as given. A document it finds is
      returned unchanged, so a success always carries an incident; an empty
      answer fails with 'Incident not found.'; an error of the lookup itself
      propagates unchanged, as there is no `catch`. */
  function CheckIncidentPresence<Q, T>(findOne: Q -> Result<Option<T>>, query: Q): (r: Result<T>)
    ensures r.Ok? <==> findOne(query).Ok? && findOne(query).value.Some?
    ensures r.Ok? ==> findOne(query) == Ok(Some(r.value))
    ensures findOne(query) == Ok(None) ==> r == Err(PlainError(NotFoundMessage))
    ensures findOne(query).Err? ==> r == Err(findOne(query).error)
  {
    match findOne(query)
    case Err(e) => Err(e)
    case Ok(None) => Err(PlainError(NotFoundMessage))
    case Ok(Some(incident)) => Ok(incident)
  }

  /** Only an empty answer produces the not-found error: if the lookup's own
      errors never say 'Incident not found.', that message means that nothing
      matched. */
  lemma NotFoundMeansNoMatch<Q, T>(findOne: Q -> Result<Option<T>>, query: Q)
    requires findOne(query).Err? ==> findOne(query).error.message != NotFoundMessage
    ensures CheckIncidentPresence(findOne, query).Err? &&
      CheckIncidentPresence(findOne, query).error.message == NotFoundMessage
      <==> findOne(query) == Ok(None)
  {
  }
}
