/** The incident schema: the shape of a stored incident, its enumerations,
    length and tag bounds, the discussion entry and the defaults; how Mongoose
    turns the fields given to `create` or to an update into a stored document;
    and the `Incident` model itself as an in-memory store. */
module IncidentModel {
  import opened Common
  import opened JsText

  const MaxTextLength: nat := 1000
  const MaxTags: nat := 10

  const DefaultStatus: string := "Open"
  const DefaultSeverity: string := "Low"

  predicate IsEnvironment(e: string) {
    e == "Production" || e == "Staging" || e == "Development"
  }

  predicate IsStatus(s: string) {
    s == "Open" || s == "In Progress" || s == "Resolved" || s == "Closed"
  }

  predicate IsSeverity(s: string) {
    s == "Low" || s == "Medium" || s == "High" || s == "Critical"
  }

  /** One entry of `caseDiscussion`; `author` is a user's id (absent when the
      entry was given none) and `timestamp` milliseconds since the epoch. */
  datatype DiscussionEntry = DiscussionEntry(message: string, author: Option<nat>, timestamp: int)

  /** A stored incident; `id` is its `_id`, the other ids refer to users and
      incidents. A required string that was not given is stored as "", which
      the `required` validator refuses just as it refuses a missing value. */
  datatype Incident = Incident(
    id: nat,
    title: string,
    incidentAutoId: string,
    description: string,
    environment: string,
    createdBy: Option<nat>,
    status: string,
    assignedTo: Option<nat>,
    updatedBy: Option<nat>,
    resolvedAt: Option<int>,
    tags: seq<string>,
    resolutionDetails: string,
    severity: string,
    relatedLinks: seq<string>,
    relatedIncidents: seq<nat>,
    caseDiscussion: seq<DiscussionEntry>)

  /** A discussion entry as a caller supplies it: each path may be missing. */
  datatype EntryFields = EntryFields(message: Option<string>, author: Option<nat>, timestamp: Option<int>)

  /** The paths of an incident as a caller supplies them: to `create`, or as
      the plain object of an update (which sets exactly the paths present). */
  datatype IncidentFields = IncidentFields(
    title: Option<string>,
    incidentAutoId: Option<string>,
    description: Option<string>,
    environment: Option<string>,
    createdBy: Option<nat>,
    status: Option<string>,
    assignedTo: Option<nat>,
    updatedBy: Option<nat>,
    resolvedAt: Option<int>,
    tags: Option<seq<string>>,
    resolutionDetails: Option<string>,
    severity: Option<string>,
    relatedLinks: Option<seq<string>>,
    relatedIncidents: Option<seq<nat>>,
    caseDiscussion: Option<seq<EntryFields>>)

  /** An update of one or more incidents: a plain object of paths to set, or
      a `$push` of one entry onto `caseDiscussion`. */
  datatype Update = Set(fields: IncidentFields) | Push(entry: EntryFields)

  /** `title`: trimmed and required (a required string may not be empty). */
  predicate TitleValid(title: string) {
    IsTrimmed(title) && |title| > 0
  }

  /** `incidentAutoId`: required. */
  predicate AutoIdValid(autoId: string) {
    |autoId| > 0
  }

  /** `description`: trimmed, required, at most 1000 UTF-16 code units. */
  predicate DescriptionValid(description: string) {
    IsTrimmed(description) && |description| > 0 && Utf16Length(description) <= MaxTextLength
  }

  /** The `tags` validator `tags.length <= 10`. */
  predicate TagsValid(tags: seq<string>) {
    |tags| <= MaxTags
  }

  /** `resolutionDetails`: at most 1000 UTF-16 code units. */
  predicate ResolutionDetailsValid(details: string) {
    Utf16Length(details) <= MaxTextLength
  }

  /** A discussion entry needs a message and an author. */
  predicate EntryValid(e: DiscussionEntry) {
    |e.message| > 0 && e.author.Some?
  }

  predicate DiscussionValid(entries: seq<DiscussionEntry>) {
    forall i | 0 <= i < |entries| :: EntryValid(entries[i])
  }

  /** Every constraint of the schema holds of a stored incident. */
  predicate IncidentValid(i: Incident) {
    && TitleValid(i.title)
    && AutoIdValid(i.incidentAutoId)
    && DescriptionValid(i.description)
    && IsEnvironment(i.environment)
    && i.createdBy.Some?
    && IsStatus(i.status)
    && TagsValid(i.tags)
    && ResolutionDetailsValid(i.resolutionDetails)
    && IsSeverity(i.severity)
    && DiscussionValid(i.caseDiscussion)
  }

  /** No stored incident other than `except` has the identifier `autoId`. */
  predicate AutoIdFree(incidents: map<nat, Incident>, autoId: string, except: Option<nat>) {
    forall k | k in incidents && Some(k) != except :: incidents[k].incidentAutoId != autoId
  }

  /** The unique index on `incidentAutoId`. */
  predicate AutoIdsUnique(incidents: map<nat, Incident>) {
    forall j, k | j in incidents && k in incidents && j != k ::
      incidents[j].incidentAutoId != incidents[k].incidentAutoId
  }

  /** An entry as the schema builds it: a missing message is empty, which
      `required` refuses, and the timestamp defaults to the time it is added
      (`Date.now`). */
  function NewEntry(f: EntryFields, now: int): (e: DiscussionEntry)
    ensures f.message.Some? ==> e.message == f.message.value
    ensures e.author == f.author
    ensures e.timestamp == if f.timestamp.Some? then f.timestamp.value else now
    ensures EntryValid(e) <==> EntryFieldsValid(f)
  {
    DiscussionEntry(f.message.UnwrapOr(""), f.author, f.timestamp.UnwrapOr(now))
  }

  /** The validators of an entry's paths: a non-empty message and an author. */
  predicate EntryFieldsValid(f: EntryFields) {
    f.message.Some? && |f.message.value| > 0 && f.author.Some?
  }

  function NewEntries(fs: seq<EntryFields>, now: int): (es: seq<DiscussionEntry>)
    ensures |es| == |fs|
    ensures forall j | 0 <= j < |fs| :: es[j] == NewEntry(fs[j], now)
  {
    seq(|fs|, j requires 0 <= j < |fs| => NewEntry(fs[j], now))
  }

  /** The validators of every path that `f` supplies (the paths an update
      validator looks at), on the values the setters store. */
  predicate FieldsValid(f: IncidentFields) {
    && (f.title.Some? ==> TitleValid(Trim(f.title.value)))
    && (f.incidentAutoId.Some? ==> AutoIdValid(f.incidentAutoId.value))
    && (f.description.Some? ==> DescriptionValid(Trim(f.description.value)))
    && (f.environment.Some? ==> IsEnvironment(f.environment.value))
    && (f.status.Some? ==> IsStatus(f.status.value))
    && (f.tags.Some? ==> TagsValid(f.tags.value))
    && (f.resolutionDetails.Some? ==> ResolutionDetailsValid(f.resolutionDetails.value))
    && (f.severity.Some? ==> IsSeverity(f.severity.value))
    && (f.caseDiscussion.Some? ==>
          forall j | 0 <= j < |f.caseDiscussion.value| :: EntryFieldsValid(f.caseDiscussion.value[j]))
  }

  /** The paths the schema marks `required`. */
  predicate HasRequired(f: IncidentFields) {
    f.title.Some? && f.incidentAutoId.Some? && f.description.Some? && f.environment.Some? && f.createdBy.Some?
  }

  /** The document `Incident.create(f)` builds before validation: `trim` on
      title and description, and each schema default where `f` has no value. */
  function NewIncident(f: IncidentFields, id: nat, now: int): (i: Incident)
    ensures i.id == id
    ensures i.title == Trim(f.title.UnwrapOr("")) && IsTrimmed(i.title)
    ensures i.incidentAutoId == f.incidentAutoId.UnwrapOr("")
    ensures i.description == Trim(f.description.UnwrapOr("")) && IsTrimmed(i.description)
    ensures i.environment == f.environment.UnwrapOr("")
    ensures i.createdBy == f.createdBy && i.assignedTo == f.assignedTo
    ensures i.updatedBy == f.updatedBy && i.resolvedAt == f.resolvedAt
    ensures i.status == if f.status.Some? then f.status.value else "Open"
    ensures i.severity == if f.severity.Some? then f.severity.value else "Low"
    ensures i.tags == f.tags.UnwrapOr([]) && i.resolutionDetails == f.resolutionDetails.UnwrapOr("")
    ensures i.relatedLinks == f.relatedLinks.UnwrapOr([]) && i.relatedIncidents == f.relatedIncidents.UnwrapOr([])
    ensures i.caseDiscussion == NewEntries(f.caseDiscussion.UnwrapOr([]), now)
    ensures |i.caseDiscussion| == |f.caseDiscussion.UnwrapOr([])|
  {
    TrimIsTrimmed(f.title.UnwrapOr(""));
    TrimIsTrimmed(f.description.UnwrapOr(""));
    Incident(
      id,
      Trim(f.title.UnwrapOr("")),
      f.incidentAutoId.UnwrapOr(""),
      Trim(f.description.UnwrapOr("")),
      f.environment.UnwrapOr(""),
      f.createdBy,
      f.status.UnwrapOr(DefaultStatus),
      f.assignedTo,
      f.updatedBy,
      f.resolvedAt,
      f.tags.UnwrapOr([]),
      f.resolutionDetails.UnwrapOr(""),
      f.severity.UnwrapOr(DefaultSeverity),
      f.relatedLinks.UnwrapOr([]),
      f.relatedIncidents.UnwrapOr([]),
      NewEntries(f.caseDiscussion.UnwrapOr([]), now))
  }

  /** `i` with every path that `f` supplies set (through the setters), and
      every other path as it was. */
  function ApplyFields(i: Incident, f: IncidentFields, now: int): (j: Incident)
    ensures j.id == i.id
    ensures j.title == if f.title.Some? then Trim(f.title.value) else i.title
    ensures j.incidentAutoId == if f.incidentAutoId.Some? then f.incidentAutoId.value else i.incidentAutoId
    ensures j.description == if f.description.Some? then Trim(f.description.value) else i.description
    ensures j.environment == if f.environment.Some? then f.environment.value else i.environment
    ensures j.createdBy == if f.createdBy.Some? then f.createdBy else i.createdBy
    ensures j.status == if f.status.Some? then f.status.value else i.status
    ensures j.assignedTo == if f.assignedTo.Some? then f.assignedTo else i.assignedTo
    ensures j.updatedBy == if f.updatedBy.Some? then f.updatedBy else i.updatedBy
    ensures j.resolvedAt == if f.resolvedAt.Some? then f.resolvedAt else i.resolvedAt
    ensures j.tags == if f.tags.Some? then f.tags.value else i.tags
    ensures j.resolutionDetails == if f.resolutionDetails.Some? then f.resolutionDetails.value else i.resolutionDetails
    ensures j.severity == if f.severity.Some? then f.severity.value else i.severity
    ensures j.relatedLinks == if f.relatedLinks.Some? then f.relatedLinks.value else i.relatedLinks
    ensures j.relatedIncidents == if f.relatedIncidents.Some? then f.relatedIncidents.value else i.relatedIncidents
    ensures j.caseDiscussion == if f.caseDiscussion.Some? then NewEntries(f.caseDiscussion.value, now) else i.caseDiscussion
  {
    i.(
      title := TrimmedOr(f.title, i.title),
      incidentAutoId := f.incidentAutoId.UnwrapOr(i.incidentAutoId),
      description := TrimmedOr(f.description, i.description),
      environment := f.environment.UnwrapOr(i.environment),
      createdBy := Supplied(f.createdBy, i.createdBy),
      status := f.status.UnwrapOr(i.status),
      assignedTo := Supplied(f.assignedTo, i.assignedTo),
      updatedBy := Supplied(f.updatedBy, i.updatedBy),
      resolvedAt := Supplied(f.resolvedAt, i.resolvedAt),
      tags := f.tags.UnwrapOr(i.tags),
      resolutionDetails := f.resolutionDetails.UnwrapOr(i.resolutionDetails),
      severity := f.severity.UnwrapOr(i.severity),
      relatedLinks := f.relatedLinks.UnwrapOr(i.relatedLinks),
      relatedIncidents := f.relatedIncidents.UnwrapOr(i.relatedIncidents),
      caseDiscussion := if f.caseDiscussion.Some? then NewEntries(f.caseDiscussion.value, now) else i.caseDiscussion)
  }

  /** What an update does to one matching incident. A `$push` adds exactly
      one entry at the end of the discussion and keeps the earlier ones. */
  function ApplyUpdate(i: Incident, u: Update, now: int): (j: Incident)
    ensures j.id == i.id
    ensures u.Push? ==> j == i.(caseDiscussion := i.caseDiscussion + [NewEntry(u.entry, now)])
    ensures u.Push? ==> (|j.caseDiscussion| == |i.caseDiscussion| + 1
      && j.caseDiscussion[..|i.caseDiscussion|] == i.caseDiscussion
      && j.caseDiscussion[|i.caseDiscussion|] == NewEntry(u.entry, now))
  {
    match u
    case Set(f) => ApplyFields(i, f, now)
    case Push(e) =>
      var d := i.caseDiscussion + [NewEntry(e, now)];
      assert d[..|i.caseDiscussion|] == i.caseDiscussion;
      i.(caseDiscussion := d)
  }

  /** The update validators (`runValidators: true`): they check the paths
      the update supplies, and only those. */
  predicate UpdateValid(u: Update) {
    match u
    case Set(f) => FieldsValid(f)
    case Push(e) => EntryFieldsValid(e)
  }

  lemma NewEntriesValid(fs: seq<EntryFields>, now: int)
    ensures DiscussionValid(NewEntries(fs, now)) <==>
      forall j | 0 <= j < |fs| :: EntryFieldsValid(fs[j])
  {
    var es := NewEntries(fs, now);
    if forall j | 0 <= j < |fs| :: EntryFieldsValid(fs[j]) {
      forall j | 0 <= j < |es| ensures EntryValid(es[j]) {
        assert es[j] == NewEntry(fs[j], now);
      }
    } else {
      var j :| 0 <= j < |fs| && !EntryFieldsValid(fs[j]);
      assert !EntryValid(es[j]);
    }
  }

  /** A new document passes the schema exactly when every required path is
      given and every given path passes its validator. */
  lemma NewIncidentValidIff(f: IncidentFields, id: nat, now: int)
    ensures IncidentValid(NewIncident(f, id, now)) <==> HasRequired(f) && FieldsValid(f)
  {
    NewIncidentTrimmedPaths(f, id, now);
    NewIncidentRequiredPaths(f, id, now);
    NewIncidentOptionalPaths(f, id, now);
    NewIncidentOtherPaths(f, id, now);
    ValidIffPathsValid(NewIncident(f, id, now), f);
  }

  /** The schema check on a document is the conjunction of its path checks:
      when each path of `i` is valid exactly when the corresponding field of
      `f` is given (if required) and valid (if given), `i` is valid exactly
      when `f` has its required fields and they are valid. */
  lemma ValidIffPathsValid(i: Incident, f: IncidentFields)
    requires TitleValid(i.title) <==> f.title.Some? && TitleValid(Trim(f.title.value))
    requires DescriptionValid(i.description) <==> f.description.Some? && DescriptionValid(Trim(f.description.value))
    requires AutoIdValid(i.incidentAutoId) <==> f.incidentAutoId.Some? && AutoIdValid(f.incidentAutoId.value)
    requires IsEnvironment(i.environment) <==> f.environment.Some? && IsEnvironment(f.environment.value)
    requires i.createdBy == f.createdBy
    requires IsStatus(i.status) <==> (f.status.Some? ==> IsStatus(f.status.value))
    requires IsSeverity(i.severity) <==> (f.severity.Some? ==> IsSeverity(f.severity.value))
    requires TagsValid(i.tags) <==> (f.tags.Some? ==> TagsValid(f.tags.value))
    requires ResolutionDetailsValid(i.resolutionDetails) <==>
      (f.resolutionDetails.Some? ==> ResolutionDetailsValid(f.resolutionDetails.value))
    requires DiscussionValid(i.caseDiscussion) <==>
      (f.caseDiscussion.Some? ==>
         forall j | 0 <= j < |f.caseDiscussion.value| :: EntryFieldsValid(f.caseDiscussion.value[j]))
    ensures IncidentValid(i) <==> HasRequired(f) && FieldsValid(f)
  {
  }

  /** The creator is stored as given; missing tags and resolution details
      take valid defaults. */
  lemma NewIncidentOtherPaths(f: IncidentFields, id: nat, now: int)
    ensures NewIncident(f, id, now).createdBy == f.createdBy
    ensures TagsValid(NewIncident(f, id, now).tags) <==> (f.tags.Some? ==> TagsValid(f.tags.value))
    ensures ResolutionDetailsValid(NewIncident(f, id, now).resolutionDetails) <==>
      (f.resolutionDetails.Some? ==> ResolutionDetailsValid(f.resolutionDetails.value))
  {
  }

  /** A missing environment reads as "", which is no environment. */
  lemma EnvironmentOfMissing(e: Option<string>)
    ensures IsEnvironment(e.UnwrapOr("")) <==> e.Some? && IsEnvironment(e.value)
  {
  }

  /** A missing status or severity takes its default, which is valid. */
  lemma DefaultsOfMissing(status: Option<string>, severity: Option<string>)
    ensures IsStatus(status.UnwrapOr(DefaultStatus)) <==> (status.Some? ==> IsStatus(status.value))
    ensures IsSeverity(severity.UnwrapOr(DefaultSeverity)) <==> (severity.Some? ==> IsSeverity(severity.value))
  {
  }

  /** Path by path: a required path with a `trim` setter is valid once
      stored iff it is given and its trimmed value is valid. */
  lemma NewIncidentTrimmedPaths(f: IncidentFields, id: nat, now: int)
    ensures TitleValid(NewIncident(f, id, now).title) <==> f.title.Some? && TitleValid(Trim(f.title.value))
    ensures DescriptionValid(NewIncident(f, id, now).description) <==>
      f.description.Some? && DescriptionValid(Trim(f.description.value))
  {
    TrimOfMissing(f.title);
    TrimOfMissing(f.description);
  }

  /** The required paths without a setter, likewise. */
  lemma NewIncidentRequiredPaths(f: IncidentFields, id: nat, now: int)
    ensures AutoIdValid(NewIncident(f, id, now).incidentAutoId) <==>
      f.incidentAutoId.Some? && AutoIdValid(f.incidentAutoId.value)
    ensures IsEnvironment(NewIncident(f, id, now).environment) <==>
      f.environment.Some? && IsEnvironment(f.environment.value)
  {
    EnvironmentOfMissing(f.environment);
  }

  /** An optional path is valid once stored iff it is missing (its default
      is valid) or valid. */
  lemma NewIncidentOptionalPaths(f: IncidentFields, id: nat, now: int)
    ensures IsStatus(NewIncident(f, id, now).status) <==> (f.status.Some? ==> IsStatus(f.status.value))
    ensures IsSeverity(NewIncident(f, id, now).severity) <==> (f.severity.Some? ==> IsSeverity(f.severity.value))
    ensures DiscussionValid(NewIncident(f, id, now).caseDiscussion) <==>
      (f.caseDiscussion.Some? ==>
         forall j | 0 <= j < |f.caseDiscussion.value| :: EntryFieldsValid(f.caseDiscussion.value[j]))
  {
    DefaultsOfMissing(f.status, f.severity);
    NewEntriesValid(f.caseDiscussion.UnwrapOr([]), now);
  }

  /** An update that passes the update validators keeps a valid incident valid. */
  lemma ApplyUpdateKeepsValid(i: Incident, u: Update, now: int)
    requires IncidentValid(i) && UpdateValid(u)
    ensures IncidentValid(ApplyUpdate(i, u, now))
  {
    match u
    case Set(f) =>
      if f.caseDiscussion.Some? {
        NewEntriesValid(f.caseDiscussion.value, now);
      }
    case Push(e) =>
      var j := ApplyUpdate(i, u, now);
      forall k | 0 <= k < |j.caseDiscussion| ensures EntryValid(j.caseDiscussion[k]) {
        if k < |i.caseDiscussion| {
          assert j.caseDiscussion[k] == i.caseDiscussion[k];
        }
      }
  }

  /** The tag bound: ten tags pass, eleven do not. */
  lemma TagBound(tags: seq<string>, extra: string)
    requires |tags| == MaxTags
    ensures TagsValid(tags) && !TagsValid(tags + [extra])
  {
  }

  /** The error a failed validation throws: Mongoose's `ValidationError`,
      which carries no `statusCode`. */
  const ValidationError: Error := PlainError("Validation failed")

  /** The error a violated unique index throws (code 11000, no `statusCode`). */
  const DuplicateKeyError: Error := PlainError("E11000 duplicate key error")

  /** A filter over the stored incidents, given each one's key and document. */
  type Query = (nat, Incident) -> bool

  /** `{ _id: id }`. */
  function ById(id: nat): (q: Query)
    ensures forall k, i :: q(k, i) <==> k == id
  {
    (k: nat, i: Incident) => k == id
  }

  /** `{}`: every incident. */
  function Everything(): (q: Query)
    ensures forall k, i :: q(k, i)
  {
    (k: nat, i: Incident) => true
  }

  /** The keys that `query` selects, in a snapshot of the store. */
  function Selected(incidents: map<nat, Incident>, query: Query): (s: set<nat>)
    ensures forall k :: k in s <==> k in incidents && query(k, incidents[k])
  {
    set k | k in incidents && query(k, incidents[k])
  }

  /** A store after `update` was applied to every document `query` selects. */
  function UpdatedWhere(incidents: map<nat, Incident>, query: Query, u: Update, now: int): (m: map<nat, Incident>)
    ensures m.Keys == incidents.Keys
    ensures forall k | k in incidents ::
      m[k] == if query(k, incidents[k]) then ApplyUpdate(incidents[k], u, now) else incidents[k]
  {
    map k | k in incidents :: if query(k, incidents[k]) then ApplyUpdate(incidents[k], u, now) else incidents[k]
  }

  /** Every incident sits at its own key, and every key is below `bound`. */
  predicate KeyedBelow(incidents: map<nat, Incident>, bound: nat) {
    forall k | k in incidents :: k < bound && incidents[k].id == k
  }

  /** The invariant of the `Incident` model: keys below the next one, every
      document valid, identifiers unique. */
  predicate StoreValid(incidents: map<nat, Incident>, nextId: nat) {
    && KeyedBelow(incidents, nextId)
    && (forall k {:trigger IncidentValid(incidents[k])} | k in incidents :: IncidentValid(incidents[k]))
    && AutoIdsUnique(incidents)
  }

  /** Inserting at the next key a valid incident whose identifier no stored
      incident has keeps the invariant. */
  lemma InsertKeepsValid(incidents: map<nat, Incident>, nextId: nat, i: Incident)
    requires StoreValid(incidents, nextId)
    requires i.id == nextId && IncidentValid(i) && AutoIdFree(incidents, i.incidentAutoId, None)
    ensures StoreValid(incidents[nextId := i], nextId + 1)
  {
  }

  /** Replacing a stored incident by a valid one with the same key, whose
      identifier no other incident has, keeps the invariant. */
  lemma ReplaceKeepsValid(incidents: map<nat, Incident>, nextId: nat, j: Incident)
    requires StoreValid(incidents, nextId)
    requires j.id in incidents && IncidentValid(j) && AutoIdFree(incidents, j.incidentAutoId, Some(j.id))
    ensures StoreValid(incidents[j.id := j], nextId)
  {
  }

  /** The first incident, in insertion order (keys below `bound`), that
      `query` selects: what `findOne` answers on that snapshot of the store. */
  function FirstIncident(incidents: map<nat, Incident>, bound: nat, query: Query): (r: Option<Incident>)
    ensures KeyedBelow(incidents, bound) && r.Some? ==>
      r.value.id in incidents && incidents[r.value.id] == r.value && query(r.value.id, r.value)
    ensures KeyedBelow(incidents, bound) && r.Some? ==>
      forall k | k in incidents && k < r.value.id :: !query(k, incidents[k])
    ensures KeyedBelow(incidents, bound) ==> (r.None? <==> Selected(incidents, query) == {})
  {
    var k := FirstMatch(incidents, query, 0, bound);
    if k.Some? then Some(incidents[k.value]) else None
  }

  /** The `Incident` model: the stored incidents by key, and the next key to
      hand out, so that keys grow in insertion order. */
  class IncidentStore {
    var incidents: map<nat, Incident>
    var nextId: nat

    /** Every stored incident sits at its own key, below `nextId`, passes the
        schema, and the identifiers are unique. */
    ghost predicate Valid()
      reads this
    {
      StoreValid(incidents, nextId)
    }

    constructor ()
      ensures Valid() && incidents == map[] && nextId == 0
    {
      incidents := map[];
      nextId := 0;
    }

    /** `Incident.findOne(query)`: the first incident, in insertion order,
        that the query selects. */
    function FindOne(query: Query): (r: Option<Incident>)
      reads this
      requires Valid()
      ensures r.Some? ==> r.value.id in incidents && incidents[r.value.id] == r.value && query(r.value.id, r.value)
      ensures r.Some? ==> forall k | k in incidents && k < r.value.id :: !query(k, incidents[k])
      ensures r.None? <==> Selected(incidents, query) == {}
    {
      FirstIncident(incidents, nextId, query)
    }

    /** `Incident.find(query)`: every incident the query selects. */
    function Find(query: Query): (r: seq<Incident>)
      reads this
      requires Valid()
      ensures forall i | i in r :: i.id in incidents && incidents[i.id] == i && query(i.id, i)
      ensures forall k | k in Selected(incidents, query) :: incidents[k] in r
    {
      AllMatches(incidents, query, 0, nextId)
    }

    /** `Incident.create(fields)`: the document is validated, then inserted
        unless its identifier is taken. */
    method Create(fields: IncidentFields, now: int) returns (r: Result<Incident>)
      requires Valid()
      modifies this
      ensures Valid()
      ensures var doc := NewIncident(fields, old(nextId), now);
        if !IncidentValid(doc) then
          r == Err(ValidationError) && incidents == old(incidents) && nextId == old(nextId)
        else if !AutoIdFree(old(incidents), doc.incidentAutoId, None) then
          r == Err(DuplicateKeyError) && incidents == old(incidents) && nextId == old(nextId)
        else
          r == Ok(doc) && incidents == old(incidents)[doc.id := doc] && nextId == old(nextId) + 1
    {
      var doc := NewIncident(fields, nextId, now);
      if !IncidentValid(doc) {
        r := Err(ValidationError);
      } else {
        r := Insert(doc);
      }
    }

    /** The write of `create` once the document has passed validation: the
        unique index on `incidentAutoId`, then the insert at the next key. */
    method Insert(doc: Incident) returns (r: Result<Incident>)
      requires Valid() && doc.id == nextId && IncidentValid(doc)
      modifies this
      ensures Valid()
      ensures if AutoIdFree(old(incidents), doc.incidentAutoId, None) then
          r == Ok(doc) && incidents == old(incidents)[doc.id := doc] && nextId == old(nextId) + 1
        else
          r == Err(DuplicateKeyError) && incidents == old(incidents) && nextId == old(nextId)
    {
      if AutoIdFree(incidents, doc.incidentAutoId, None) {
        InsertKeepsValid(incidents, nextId, doc);
        incidents := incidents[nextId := doc];
        nextId := nextId + 1;
        r := Ok(doc);
      } else {
        r := Err(DuplicateKeyError);
      }
    }

    /** `Incident.findOneAndUpdate(query, u, { new: true, runValidators: true })`:
        the update is validated before anything is looked up; then the first
        match, if any, is replaced by its updated version, which is returned. */
    method FindOneAndUpdate(query: Query, u: Update, now: int) returns (r: Result<Option<Incident>>)
      requires Valid()
      modifies this
      ensures Valid() && nextId == old(nextId)
      ensures !UpdateValid(u) ==> r == Err(ValidationError) && incidents == old(incidents)
      ensures UpdateValid(u) && Selected(old(incidents), query) == {} ==>
        r == Ok(None) && incidents == old(incidents)
      ensures r.Ok? && r.value.Some? ==>
        && old(FindOne(query)).Some?
        && r.value.value == ApplyUpdate(old(FindOne(query)).value, u, now)
        && incidents == old(incidents)[r.value.value.id := r.value.value]
      ensures r.Err? || r.value.None? ==> incidents == old(incidents)
      ensures UpdateValid(u) && old(FindOne(query)).Some? ==>
        var j := ApplyUpdate(old(FindOne(query)).value, u, now);
        r == if AutoIdFree(old(incidents), j.incidentAutoId, Some(j.id)) then Ok(Some(j)) else Err(DuplicateKeyError)
    {
      if !UpdateValid(u) {
        return Err(ValidationError);
      }
      var found := FindOne(query);
      if found.None? {
        return Ok(None);
      }
      var j := ApplyUpdate(found.value, u, now);
      if !AutoIdFree(incidents, j.incidentAutoId, Some(j.id)) {
        return Err(DuplicateKeyError);
      }
      ApplyUpdateKeepsValid(found.value, u, now);
      ReplaceKeepsValid(incidents, nextId, j);
      incidents := incidents[j.id := j];
      r := Ok(Some(j));
    }

    /** `Incident.updateMany(query, u, { runValidators: true })`: every
        selected incident is updated; the result is how many matched. */
    method UpdateMany(query: Query, u: Update, now: int) returns (r: Result<nat>)
      requires Valid()
      modifies this
      ensures Valid() && nextId == old(nextId)
      ensures !UpdateValid(u) ==> r == Err(ValidationError) && incidents == old(incidents)
      ensures UpdateValid(u) ==>
        var m := UpdatedWhere(old(incidents), query, u, now);
        if AutoIdsUnique(m) then r == Ok(|Selected(old(incidents), query)|) && incidents == m
        else r == Err(DuplicateKeyError) && incidents == old(incidents)
    {
      if !UpdateValid(u) {
        return Err(ValidationError);
      }
      var m := UpdatedWhere(incidents, query, u, now);
      if !AutoIdsUnique(m) {
        return Err(DuplicateKeyError);
      }
      forall k | k in m ensures k < nextId && m[k].id == k && IncidentValid(m[k]) {
        if query(k, incidents[k]) {
          ApplyUpdateKeepsValid(incidents[k], u, now);
        }
      }
      r := Ok(|Selected(incidents, query)|);
      incidents := m;
    }

    /** `Incident.findOneAndDelete(query)`: the first match is removed and returned. */
    method FindOneAndDelete(query: Query) returns (r: Option<Incident>)
      requires Valid()
      modifies this
      ensures Valid() && nextId == old(nextId)
      ensures r == old(FindOne(query))
      ensures r.Some? ==> incidents == old(incidents) - {r.value.id}
      ensures r.None? ==> incidents == old(incidents)
    {
      r := FindOne(query);
      if r.Some? {
        incidents := incidents - {r.value.id};
      }
    }

    /** `Incident.deleteMany(query)`: every selected incident is removed; the
        result is how many were. */
    method DeleteMany(query: Query) returns (count: nat)
      requires Valid()
      modifies this
      ensures Valid() && nextId == old(nextId)
      ensures count == |Selected(old(incidents), query)|
      ensures incidents == old(incidents) - Selected(old(incidents), query)
    {
      var gone := Selected(incidents, query);
      count := |gone|;
      incidents := incidents - gone;
    }
  }
}
