/** The incident controller: each handler calls the service, answers with a
    status and a JSON body, and turns an error into 404 when its message is
    'Incident not found.' and into 400 otherwise.

    The handlers are modelled with the service names they import bound to
    the service's operations (`createNewIncidentService` to createIncident,
    `findIncidentByQueryService` to findOneIncident, and so on), and with
    `checkIncidentPresence` given the `Incident` model's own `findOne`. As
    written neither binding exists; `AsWrittenResponse` models that. */
module IncidentController {
  import opened Common
  import opened IncidentModel
  import opened IncidentService
  import opened IncidentPresence
  import Pagination

  /** The JSON bodies the handlers send. */
  datatype Body =
    | IncidentJson(incident: Incident)
    | IncidentListJson(incidents: seq<Incident>)
    | SearchJson(incidentsQuery: seq<Incident>)
    | MessageJson(message: string)

  datatype Response = Response(status: int, body: Body)

  const DiscussionFieldsRequired: string := "Message and author are required."

  /** The status of a failed get, update, delete or discussion. */
  function ErrorStatus(e: Error): (s: int)
    ensures s == 404 <==> e.message == NotFoundMessage
    ensures s == 400 <==> e.message != NotFoundMessage
  {
    if e.message == NotFoundMessage then 404 else 400
  }

  function Failure(e: Error): (r: Response)
    ensures r.status == ErrorStatus(e) && r.body == MessageJson(e.message)
  {
    Response(ErrorStatus(e), MessageJson(e.message))
  }

  /** The answer of a handler whose service call produced `r`: 200 with the
      incident, or the failure. */
  function Answer(r: Result<Incident>): (resp: Response)
    ensures r.Ok? ==> resp == Response(200, IncidentJson(r.value))
    ensures r.Err? ==> resp == Failure(r.error)
  {
    if r.Ok? then Response(200, IncidentJson(r.value)) else Failure(r.error)
  }

  /** The answer of `handleCreateIncident` to the outcome of the service:
      201 with the created incident, or 400 with the service's message. */
  function CreateAnswer(r: Result<Incident>): (resp: Response)
    ensures r.Ok? ==> resp == Response(201, IncidentJson(r.value))
    ensures r.Err? ==> resp == Response(400, MessageJson(r.error.message))
  {
    if r.Ok? then Response(201, IncidentJson(r.value)) else Response(400, MessageJson(r.error.message))
  }

  /** The model's `findOne` on a snapshot of the store: the lookup that
      `checkIncidentPresence` needs. `fault` is an error the database throws. */
  function ModelFindOne(incidents: map<nat, Incident>, bound: nat, fault: Option<Error>): Query -> Result<Option<Incident>>
  {
    (q: Query) => if fault.Some? then Err(fault.value) else Ok(FirstIncident(incidents, bound, q))
  }

  /** The presence check of `{ _id: id }`: the stored incident, 'Incident not
      found.' when there is none, or the database's own error. */
  lemma PresenceById(incidents: map<nat, Incident>, bound: nat, fault: Option<Error>, id: nat)
    requires KeyedBelow(incidents, bound)
    ensures var r := CheckIncidentPresence(ModelFindOne(incidents, bound, fault), ById(id));
      && (fault.Some? ==> r == Err(fault.value))
      && (fault.None? && id in incidents ==> r == Ok(incidents[id]))
      && (fault.None? && id !in incidents ==> r == Err(PlainError(NotFoundMessage)))
  {
    var found := FirstIncident(incidents, bound, ById(id));
    if id in incidents {
      assert id in Selected(incidents, ById(id));
    } else {
      assert Selected(incidents, ById(id)) == {};
    }
  }

  /** `handleCreateIncident`: the service's outcome answered by
      `CreateAnswer`. The document the service builds never has the
      `incidentAutoId` the schema requires, so the answer is always 400
      'Failed to create incident.' and nothing is stored. */
  method HandleCreateIncident(store: IncidentStore, body: IncidentFields, now: int, fault: Option<Error>)
    returns (resp: Response)
    requires store.Valid()
    modifies store
    ensures store.Valid()
    ensures resp == Response(400, MessageJson(CreateFailed))
    ensures store.incidents == old(store.incidents) && store.nextId == old(store.nextId)
  {
    CreateDocumentNeverValid(body, store.nextId, now);
    var created := CreateIncident(store, body, now, fault);
    resp := CreateAnswer(created);
  }

  /** `handleGetIncidentById`: 200 with the incident stored under `id`.
      The service it calls replaces every error, not-found included, with
      'Failed to find incident.', so this handler never answers 404. */
  function HandleGetIncidentById(store: IncidentStore, id: nat, fault: Option<Error>): (resp: Response)
    reads store
    requires store.Valid()
    ensures resp.status == 200 <==> fault.None? && id in store.incidents
    ensures resp.status == 200 ==> resp.body == IncidentJson(store.incidents[id])
    ensures resp.status != 200 ==> resp == Response(400, MessageJson(FindFailed))
  {
    assert id in store.incidents ==> id in Selected(store.incidents, ById(id));
    var found := FindOneIncident(store, ById(id), fault);
    Answer(found)
  }

  /** `handleGetAllIncidents`: 200 with every incident. The page and limit
      it reads are passed to a service that takes only a query, so they
      select nothing. */
  function HandleGetAllIncidents(store: IncidentStore, pagination: Pagination.Page, fault: Option<Error>): (resp: Response)
    reads store
    requires store.Valid()
    ensures resp.status == 200 <==> fault.None?
    ensures resp.status == 200 ==> (resp.body.IncidentListJson?
      && (forall i | i in resp.body.incidents :: i.id in store.incidents && store.incidents[i.id] == i)
      && (forall k | k in store.incidents :: store.incidents[k] in resp.body.incidents))
    ensures resp.status != 200 ==> resp == Response(400, MessageJson(FindManyFailed))
  {
    var all := FindManyIncidents(store, Everything(), fault);
    if all.Ok? then Response(200, IncidentListJson(all.value)) else Response(400, MessageJson(all.error.message))
  }

  /** `handleSearchIncidents`: the request's query goes to the service as it
      is, and the matches come back under `incidentsQuery`. */
  function HandleSearchIncidents(store: IncidentStore, query: Query, fault: Option<Error>): (resp: Response)
    reads store
    requires store.Valid()
    ensures resp.status == 200 <==> fault.None?
    ensures resp.status == 200 ==> (resp.body.SearchJson?
      && (forall i | i in resp.body.incidentsQuery :: i.id in store.incidents && query(i.id, i))
      && (forall k | k in Selected(store.incidents, query) :: store.incidents[k] in resp.body.incidentsQuery))
    ensures resp.status != 200 ==> resp == Response(400, MessageJson(FindManyFailed))
  {
    var found := FindManyIncidents(store, query, fault);
    if found.Ok? then Response(200, SearchJson(found.value)) else Response(400, MessageJson(found.error.message))
  }

  /** `handleUpdateIncident`: the presence check first (404 when `id` is not
      stored), then the update of the incident it returned, by that
      incident's own `_id`; only that incident changes. */
  method HandleUpdateIncident(store: IncidentStore, id: nat, body: IncidentFields, now: int, fault: Option<Error>)
    returns (resp: Response)
    requires store.Valid()
    modifies store
    ensures store.Valid() && store.nextId == old(store.nextId)
    ensures fault.Some? ==> resp == Failure(fault.value) && store.incidents == old(store.incidents)
    ensures fault.None? && id !in old(store.incidents) ==>
      resp == Response(404, MessageJson(NotFoundMessage)) && store.incidents == old(store.incidents)
    ensures resp.status == 200 ==> (id in old(store.incidents)
      && resp.body == IncidentJson(ApplyUpdate(old(store.incidents)[id], Set(body), now))
      && store.incidents == old(store.incidents)[id := resp.body.incident])
    ensures fault.None? && id in old(store.incidents) && resp.status != 200 ==>
      resp == Response(400, MessageJson(UpdateFailed)) && store.incidents == old(store.incidents)
    ensures fault.None? && id in old(store.incidents) && !FieldsValid(body) ==> resp.status == 400
    ensures fault.None? && id in old(store.incidents) && FieldsValid(body)
      && AutoIdFree(old(store.incidents), ApplyUpdate(old(store.incidents)[id], Set(body), now).incidentAutoId, Some(id))
      ==> resp.status == 200
  {
    PresenceById(store.incidents, store.nextId, fault, id);
    var presence := CheckIncidentPresence(ModelFindOne(store.incidents, store.nextId, fault), ById(id));
    if presence.Err? {
      return Failure(presence.error);
    }
    assert Selected(store.incidents, ById(presence.value.id)) == {id};
    assert store.FindOne(ById(presence.value.id)) == Some(store.incidents[id]);
    var updated := UpdateOneIncident(store, ById(presence.value.id), Set(body), now, None);
    resp := Answer(updated);
  }

  /** `handleDeleteIncident`: the presence check first, then the removal of
      the incident it returned; only that incident goes. */
  method HandleDeleteIncident(store: IncidentStore, id: nat, fault: Option<Error>)
    returns (resp: Response)
    requires store.Valid()
    modifies store
    ensures store.Valid() && store.nextId == old(store.nextId)
    ensures fault.Some? ==> resp == Failure(fault.value) && store.incidents == old(store.incidents)
    ensures fault.None? && id !in old(store.incidents) ==>
      resp == Response(404, MessageJson(NotFoundMessage)) && store.incidents == old(store.incidents)
    ensures fault.None? && id in old(store.incidents) ==>
      resp == Response(200, IncidentJson(old(store.incidents)[id])) && store.incidents == old(store.incidents) - {id}
  {
    PresenceById(store.incidents, store.nextId, fault, id);
    var presence := CheckIncidentPresence(ModelFindOne(store.incidents, store.nextId, fault), ById(id));
    if presence.Err? {
      return Failure(presence.error);
    }
    assert Selected(store.incidents, ById(presence.value.id)) == {id};
    var deleted := DeleteOneIncident(store, ById(presence.value.id), None);
    resp := Answer(deleted);
  }

  /** `handleAddDiscussion`: without a message and an author the answer is
      400 before anything is looked up; otherwise, after the presence check,
      exactly one entry `{ message, author }` is appended at the end of the
      stored incident's discussion, and nothing else changes. */
  method HandleAddDiscussion(store: IncidentStore, id: nat, message: Option<string>, author: Option<nat>, now: int, fault: Option<Error>)
    returns (resp: Response)
    requires store.Valid()
    modifies store
    ensures store.Valid() && store.nextId == old(store.nextId)
    ensures !Truthy(message) || author.None? ==>
      resp == Response(400, MessageJson(DiscussionFieldsRequired)) && store.incidents == old(store.incidents)
    ensures Truthy(message) && author.Some? && fault.Some? ==>
      resp == Failure(fault.value) && store.incidents == old(store.incidents)
    ensures Truthy(message) && author.Some? && fault.None? && id !in old(store.incidents) ==>
      resp == Response(404, MessageJson(NotFoundMessage)) && store.incidents == old(store.incidents)
    ensures Truthy(message) && author.Some? && fault.None? && id in old(store.incidents) ==>
      var before := old(store.incidents)[id];
      var after := before.(caseDiscussion := before.caseDiscussion + [DiscussionEntry(message.value, author, now)]);
      resp == Response(200, IncidentJson(after)) && store.incidents == old(store.incidents)[id := after]
  {
    if !Truthy(message) || author.None? {
      return Response(400, MessageJson(DiscussionFieldsRequired));
    }
    PresenceById(store.incidents, store.nextId, fault, id);
    var presence := CheckIncidentPresence(ModelFindOne(store.incidents, store.nextId, fault), ById(id));
    if presence.Err? {
      return Failure(presence.error);
    }
    assert Selected(store.incidents, ById(presence.value.id)) == {id};
    var entry := EntryFields(message, author, None);
    var after := ApplyUpdate(store.incidents[id], Push(entry), now);
    assert AutoIdFree(store.incidents, after.incidentAutoId, Some(id));
    var updated := UpdateOneIncident(store, ById(presence.value.id), Push(entry), now, None);
    resp := Answer(updated);
  }

  /** The handlers, for `AsWrittenResponse`. */
  datatype Handler = Create | GetById | GetAll | Search | UpdateById | DeleteById | AddDiscussion

  /** The handlers as written: none of the five names they import from the
      service is exported, so each is `undefined`. Calling one throws a
      TypeError, and so does `checkIncidentPresence` reading `findOne` from
      `undefined`; every `catch` answers 400 with the error's message, whose
      wording is the JavaScript engine's and is the parameter `thrown`. Only
      the discussion guard answers before any of this. */
  function AsWrittenResponse(h: Handler, discussionFieldsGiven: bool, thrown: string): (resp: Response)
    ensures resp.status == 400
    ensures h == AddDiscussion && !discussionFieldsGiven ==> resp.body == MessageJson(DiscussionFieldsRequired)
    ensures !(h == AddDiscussion && !discussionFieldsGiven) ==> resp.body == MessageJson(thrown)
  {
    match h
    case AddDiscussion =>
      if discussionFieldsGiven then Response(400, MessageJson(thrown))
      else Response(400, MessageJson(DiscussionFieldsRequired))
    case _ => Response(400, MessageJson(thrown))
  }

  /** The discrepancy: for an incident that is stored, the handlers as
      written answer 400, while with the service bound they answer 200 with
      that incident; for one that is not, as written they never answer 404. */
  lemma AsWrittenLosesStoredIncident(store: IncidentStore, id: nat, thrown: string)
    requires store.Valid() && id in store.incidents
    ensures AsWrittenResponse(GetById, true, thrown).status == 400
    ensures HandleGetIncidentById(store, id, None) == Response(200, IncidentJson(store.incidents[id]))
  {
  }

  /** The handlers never answer 404 as written, whichever handler and request. */
  lemma AsWrittenNeverNotFound(h: Handler, given: bool, thrown: string)
    ensures AsWrittenResponse(h, given, thrown).status != 404
  {
  }
}
