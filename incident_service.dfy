/** The incident service: thin wrappers around the `Incident` model that build
    the document of a new incident and turn every failure, a lookup that
    matches nothing included, into one fixed message per operation.
    `fault` stands for an error the database throws on the wrapper's first
    call to the model; `now` for the clock Mongoose reads for default
    timestamps. */
module IncidentService {
  import opened Common
  import opened JsText
  import opened IncidentModel

  const CreateFailed: string := "Failed to create incident."
  const FindFailed: string := "Failed to find incident."
  const FindManyFailed: string := "Failed to find incidents."
  const UpdateFailed: string := "Failed to update incident."
  const UpdateManyFailed: string := "Failed to update incidents."
  const DeleteFailed: string := "Failed to delete incident."
  const DeleteManyFailed: string := "Failed to delete incidents."

  /** The errors thrown inside the `try` blocks when nothing matches; the
      `catch` blocks replace them. */
  const NoMatchToFind: string := "No incident found matching the query."
  const NoMatchToUpdate: string := "No incident found to update."
  const NoMatchToDelete: string := "No incident found to delete."

  /** A `try { … } catch { throw new Error(message) }` around `attempt`:
      a value passes, and every error becomes the same plain error. */
  function Rethrown<T>(attempt: Result<T>, message: string): (r: Result<T>)
    ensures attempt.Ok? ==> r == attempt
    ensures attempt.Err? ==> r == Err(PlainError(message))
  {
    if attempt.Ok? then attempt else Err(PlainError(message))
  }

  /** The object `createIncident` hands to `Incident.create`: title,
      description, environment and createdBy as given, each optional path
      given or else its default (`||`; a `resolvedAt` of 0 is falsy and
      becomes null), and every other path of the input,
      `incidentAutoId` among them, dropped. */
  function CreateFields(data: IncidentFields): (f: IncidentFields)
    ensures f.title == data.title && f.description == data.description
    ensures f.environment == data.environment && f.createdBy == data.createdBy
    ensures f.incidentAutoId.None?
    ensures Truthy(data.status) ==> f.status == data.status
    ensures !Truthy(data.status) ==> f.status == Some(DefaultStatus)
    ensures Truthy(data.severity) ==> f.severity == data.severity
    ensures !Truthy(data.severity) ==> f.severity == Some(DefaultSeverity)
    ensures f.assignedTo == data.assignedTo && f.updatedBy == data.updatedBy
    ensures data.resolvedAt.Some? && data.resolvedAt.value != 0 ==> f.resolvedAt == data.resolvedAt
    ensures data.resolvedAt.None? || data.resolvedAt.value == 0 ==> f.resolvedAt.None?
    ensures Truthy(data.resolutionDetails) ==> f.resolutionDetails == data.resolutionDetails
    ensures !Truthy(data.resolutionDetails) ==> f.resolutionDetails == Some("")
    ensures data.tags.Some? ==> f.tags == data.tags
    ensures data.tags.None? ==> f.tags == Some([])
    ensures data.relatedLinks.Some? ==> f.relatedLinks == data.relatedLinks
    ensures data.relatedLinks.None? ==> f.relatedLinks == Some([])
    ensures data.relatedIncidents.Some? ==> f.relatedIncidents == data.relatedIncidents
    ensures data.relatedIncidents.None? ==> f.relatedIncidents == Some([])
    ensures data.caseDiscussion.Some? ==> f.caseDiscussion == data.caseDiscussion
    ensures data.caseDiscussion.None? ==> f.caseDiscussion == Some([])
  {
    IncidentFields(
      title := data.title,
      incidentAutoId := None,
      description := data.description,
      environment := data.environment,
      createdBy := data.createdBy,
      status := Some(OrElse(data.status, DefaultStatus)),
      assignedTo := data.assignedTo,
      updatedBy := data.updatedBy,
      resolvedAt := if data.resolvedAt.Some? && data.resolvedAt.value != 0 then data.resolvedAt else None,
      tags := Some(data.tags.UnwrapOr([])),
      resolutionDetails := Some(OrElse(data.resolutionDetails, "")),
      severity := Some(OrElse(data.severity, DefaultSeverity)),
      relatedLinks := Some(data.relatedLinks.UnwrapOr([])),
      relatedIncidents := Some(data.relatedIncidents.UnwrapOr([])),
      caseDiscussion := Some(data.caseDiscussion.UnwrapOr([])))
  }

  /** The document built from a request with no optional paths (or falsy
      ones) is an Open, Low incident with no assignee, no resolution date, no
      tags, no links and no discussion. */
  lemma CreateDefaults(data: IncidentFields, id: nat, now: int)
    requires !Truthy(data.status) && !Truthy(data.severity) && !Truthy(data.resolutionDetails)
    requires data.assignedTo.None? && data.updatedBy.None? && (data.resolvedAt.None? || data.resolvedAt.value == 0)
    requires data.tags.None? && data.relatedLinks.None? && data.relatedIncidents.None? && data.caseDiscussion.None?
    ensures var i := NewIncident(CreateFields(data), id, now);
      && i.status == DefaultStatus && i.severity == DefaultSeverity
      && i.assignedTo.None? && i.updatedBy.None? && i.resolvedAt.None?
      && i.resolutionDetails == "" && i.tags == [] && i.relatedLinks == [] && i.relatedIncidents == []
      && i.caseDiscussion == []
  {
    var f := CreateFields(data);
    assert f.caseDiscussion == Some([]);
    assert NewEntries([], now) == [];
  }

  /** No code of the service sets `incidentAutoId`, which the schema
      requires, so the document `createIncident` builds never passes
      validation, whatever the request holds. */
  lemma CreateDocumentNeverValid(data: IncidentFields, id: nat, now: int)
    ensures !IncidentValid(NewIncident(CreateFields(data), id, now))
  {
    NewIncidentValidIff(CreateFields(data), id, now);
  }

  /** `createIncident(incidentData)`: on success the created incident; on any
      failure the single message 'Failed to create incident.'. */
  method CreateIncident(store: IncidentStore, data: IncidentFields, now: int, fault: Option<Error>)
    returns (r: Result<Incident>)
    requires store.Valid()
    modifies store
    ensures store.Valid()
    ensures r.Err? ==> (r.error == PlainError(CreateFailed)
      && store.incidents == old(store.incidents) && store.nextId == old(store.nextId))
    ensures r.Ok? ==> (fault.None? && r.value == NewIncident(CreateFields(data), old(store.nextId), now)
      && IncidentValid(r.value) && store.incidents == old(store.incidents)[r.value.id := r.value])
  {
    var attempt: Result<Incident>;
    if fault.Some? {
      attempt := Err(fault.value);
    } else {
      attempt := store.Create(CreateFields(data), now);
    }
    r := Rethrown(attempt, CreateFailed);
  }

  /** `findOneIncident(query)`: the first incident the query selects; when
      there is none, or the database fails, the single message
      'Failed to find incident.'. */
  function FindOneIncident(store: IncidentStore, query: Query, fault: Option<Error>): (r: Result<Incident>)
    reads store
    requires store.Valid()
    ensures r.Ok? <==> fault.None? && Selected(store.incidents, query) != {}
    ensures r.Ok? ==> (r.value.id in store.incidents && store.incidents[r.value.id] == r.value
      && query(r.value.id, r.value))
    ensures r.Ok? ==> forall k | k in store.incidents && k < r.value.id :: !query(k, store.incidents[k])
    ensures r.Err? ==> r.error == PlainError(FindFailed)
  {
    var attempt :=
      if fault.Some? then Err(fault.value)
      else if store.FindOne(query).None? then Err(PlainError(NoMatchToFind))
      else Ok(store.FindOne(query).value);
    Rethrown(attempt, FindFailed)
  }

  /** `findManyIncidents(query)`: the query goes to the store unchanged and
      every incident it selects comes back. */
  function FindManyIncidents(store: IncidentStore, query: Query, fault: Option<Error>): (r: Result<seq<Incident>>)
    reads store
    requires store.Valid()
    ensures r.Ok? <==> fault.None?
    ensures r.Ok? ==> forall i | i in r.value :: i.id in store.incidents && query(i.id, i)
    ensures r.Ok? ==> forall k | k in Selected(store.incidents, query) :: store.incidents[k] in r.value
    ensures r.Err? ==> r.error == PlainError(FindManyFailed)
  {
    var attempt := if fault.Some? then Err(fault.value) else Ok(store.Find(query));
    Rethrown(attempt, FindManyFailed)
  }

  /** `updateOneIncident(query, updateData)`: the first match is updated and
      returned; no match, an update the validators refuse, a taken
      identifier or a database error all become 'Failed to update incident.'
      and change nothing. */
  method UpdateOneIncident(store: IncidentStore, query: Query, u: Update, now: int, fault: Option<Error>)
    returns (r: Result<Incident>)
    requires store.Valid()
    modifies store
    ensures store.Valid() && store.nextId == old(store.nextId)
    ensures r.Err? ==> r.error == PlainError(UpdateFailed) && store.incidents == old(store.incidents)
    ensures r.Ok? ==> (fault.None? && UpdateValid(u) && old(store.FindOne(query)).Some?
      && r.value == ApplyUpdate(old(store.FindOne(query)).value, u, now)
      && store.incidents == old(store.incidents)[r.value.id := r.value])
    ensures fault.None? && UpdateValid(u) && Selected(old(store.incidents), query) == {} ==> r.Err?
    ensures fault.Some? || !UpdateValid(u) ==> r.Err?
    ensures fault.None? && UpdateValid(u) && old(store.FindOne(query)).Some? ==>
      var j := ApplyUpdate(old(store.FindOne(query)).value, u, now);
      AutoIdFree(old(store.incidents), j.incidentAutoId, Some(j.id)) ==> r == Ok(j)
  {
    var attempt: Result<Incident>;
    if fault.Some? {
      attempt := Err(fault.value);
    } else {
      var updated := store.FindOneAndUpdate(query, u, now);
      if updated.Err? {
        attempt := Err(updated.error);
      } else if updated.value.None? {
        attempt := Err(PlainError(NoMatchToUpdate));
      } else {
        attempt := Ok(updated.value.value);
      }
    }
    r := Rethrown(attempt, UpdateFailed);
  }

  /** `updateManyIncidents(query, updateData)`: how many incidents matched,
      each of them updated; any failure becomes 'Failed to update incidents.'. */
  method UpdateManyIncidents(store: IncidentStore, query: Query, u: Update, now: int, fault: Option<Error>)
    returns (r: Result<nat>)
    requires store.Valid()
    modifies store
    ensures store.Valid() && store.nextId == old(store.nextId)
    ensures r.Err? ==> r.error == PlainError(UpdateManyFailed) && store.incidents == old(store.incidents)
    ensures r.Ok? ==> (fault.None? && UpdateValid(u)
      && r.value == |Selected(old(store.incidents), query)|
      && store.incidents == UpdatedWhere(old(store.incidents), query, u, now))
  {
    var attempt: Result<nat>;
    if fault.Some? {
      attempt := Err(fault.value);
    } else {
      attempt := store.UpdateMany(query, u, now);
    }
    r := Rethrown(attempt, UpdateManyFailed);
  }

  /** `deleteOneIncident(query)`: the first match is removed and returned;
      no match or a database error becomes 'Failed to delete incident.'. */
  method DeleteOneIncident(store: IncidentStore, query: Query, fault: Option<Error>)
    returns (r: Result<Incident>)
    requires store.Valid()
    modifies store
    ensures store.Valid() && store.nextId == old(store.nextId)
    ensures r.Err? ==> r.error == PlainError(DeleteFailed) && store.incidents == old(store.incidents)
    ensures r.Ok? <==> fault.None? && Selected(old(store.incidents), query) != {}
    ensures r.Ok? ==> (Some(r.value) == old(store.FindOne(query))
      && store.incidents == old(store.incidents) - {r.value.id})
  {
    var attempt: Result<Incident>;
    if fault.Some? {
      attempt := Err(fault.value);
    } else {
      var deleted := store.FindOneAndDelete(query);
      if deleted.None? {
        attempt := Err(PlainError(NoMatchToDelete));
      } else {
        attempt := Ok(deleted.value);
      }
    }
    r := Rethrown(attempt, DeleteFailed);
  }

  /** `deleteManyIncidents(query)`: how many incidents were removed, namely
      every one the query selects; a database error becomes
      'Failed to delete incidents.'. */
  method DeleteManyIncidents(store: IncidentStore, query: Query, fault: Option<Error>)
    returns (r: Result<nat>)
    requires store.Valid()
    modifies store
    ensures store.Valid() && store.nextId == old(store.nextId)
    ensures r.Err? ==> r.error == PlainError(DeleteManyFailed) && store.incidents == old(store.incidents)
    ensures r.Ok? <==> fault.None?
    ensures r.Ok? ==> (r.value == |Selected(old(store.incidents), query)|
      && store.incidents == old(store.incidents) - Selected(old(store.incidents), query))
  {
    var attempt: Result<nat>;
    if fault.Some? {
      attempt := Err(fault.value);
    } else {
      var count := store.DeleteMany(query);
      attempt := Ok(count);
    }
    r := Rethrown(attempt, DeleteManyFailed);
  }
}
