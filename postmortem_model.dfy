/** The post-mortem schema: the incident and author it belongs to, the
    required root cause and impact, the action items with their status, and
    the lessons learned; how Mongoose builds a stored post-mortem from the
    fields given to `create`. */
module PostMortemModel {
  import opened Common
  import opened JsText

  const DefaultActionStatus: string := "Pending"
  const DefaultLessonsLearned: string := ""

  predicate IsActionStatus(s: string) {
    s == "Pending" || s == "In Progress" || s == "Completed"
  }

  /** One stored action item. */
  datatype ActionItem = ActionItem(description: string, status: string)

  /** A stored post-mortem; `id` is its `_id`, `incidentId` and `createdBy`
      refer to an incident and a user. A required string that was not given is
      stored as "", which `required` refuses just as it refuses a missing
      value. */
  datatype PostMortem = PostMortem(
    id: nat,
    incidentId: Option<nat>,
    rootCause: string,
    impact: string,
    actionItems: seq<ActionItem>,
    lessonsLearned: string,
    createdBy: Option<nat>)

  /** An action item as a caller supplies it: each path may be missing. */
  datatype ActionItemFields = ActionItemFields(description: Option<string>, status: Option<string>)

  /** The paths of a post-mortem as a caller supplies them to `create`. */
  datatype PostMortemFields = PostMortemFields(
    incidentId: Option<nat>,
    rootCause: Option<string>,
    impact: Option<string>,
    actionItems: Option<seq<ActionItemFields>>,
    lessonsLearned: Option<string>,
    createdBy: Option<nat>)

  /** An action item needs a description and a status from the enumeration. */
  predicate ActionItemValid(a: ActionItem) {
    |a.description| > 0 && IsActionStatus(a.status)
  }

  /** Every constraint of the schema holds of a stored post-mortem. */
  predicate PostMortemValid(p: PostMortem) {
    && p.incidentId.Some?
    && |p.rootCause| > 0
    && |p.impact| > 0
    && p.createdBy.Some?
    && ActionItemsValid(p.actionItems)
  }

  predicate ActionItemsValid(items: seq<ActionItem>) {
    forall j | 0 <= j < |items| :: ActionItemValid(items[j])
  }

  /** The strings the `trim` setters produce are trimmed. */
  predicate PostMortemTrimmed(p: PostMortem) {
    && IsTrimmed(p.rootCause)
    && IsTrimmed(p.impact)
    && IsTrimmed(p.lessonsLearned)
    && forall j | 0 <= j < |p.actionItems| :: IsTrimmed(p.actionItems[j].description)
  }

  /** An action item as the schema builds it: the description is trimmed and
      the status defaults to 'Pending'. */
  function NewActionItem(f: ActionItemFields): (a: ActionItem)
    ensures a.description == Trim(f.description.UnwrapOr(""))
    ensures f.status.None? ==> a.status == DefaultActionStatus
    ensures f.status.Some? ==> a.status == f.status.value
  {
    ActionItem(Trim(f.description.UnwrapOr("")), f.status.UnwrapOr(DefaultActionStatus))
  }

  /** The validators of an action item's paths, on the values the setters
      store: a description that is not blank, and a status from the
      enumeration when one is given. */
  predicate ActionItemFieldsValid(f: ActionItemFields) {
    f.description.Some? && |Trim(f.description.value)| > 0
    && (f.status.Some? ==> IsActionStatus(f.status.value))
  }

  predicate ActionItemFieldsAllValid(fs: seq<ActionItemFields>) {
    forall j | 0 <= j < |fs| :: ActionItemFieldsValid(fs[j])
  }

  function NewActionItems(fs: seq<ActionItemFields>): (items: seq<ActionItem>)
    ensures |items| == |fs|
    ensures forall j | 0 <= j < |fs| :: items[j] == NewActionItem(fs[j])
  {
    seq(|fs|, j requires 0 <= j < |fs| => NewActionItem(fs[j]))
  }

  /** The items built pass validation exactly when every supplied item does. */
  lemma NewActionItemsValidIff(fs: seq<ActionItemFields>)
    ensures ActionItemsValid(NewActionItems(fs)) <==> ActionItemFieldsAllValid(fs)
  {
    var items := NewActionItems(fs);
    forall j | 0 <= j < |fs|
      ensures ActionItemValid(items[j]) <==> ActionItemFieldsValid(fs[j])
    {
      assert items[j] == NewActionItem(fs[j]);
    }
  }

  /** The document `PostMortem.create(f)` builds before validation: `trim`
      on the four text paths, each default where `f` has no value, and an
      empty list of action items when none are given. */
  function NewPostMortem(f: PostMortemFields, id: nat): PostMortem {
    PostMortem(
      id,
      f.incidentId,
      Trim(f.rootCause.UnwrapOr("")),
      Trim(f.impact.UnwrapOr("")),
      NewActionItems(f.actionItems.UnwrapOr([])),
      Trim(f.lessonsLearned.UnwrapOr(DefaultLessonsLearned)),
      f.createdBy)
  }

  function ItemFieldsOf(items: seq<ActionItem>): (fs: seq<ActionItemFields>)
    ensures |fs| == |items|
    ensures forall j | 0 <= j < |items| ::
      fs[j] == ActionItemFields(Some(items[j].description), Some(items[j].status))
  {
    seq(|items|, j requires 0 <= j < |items| => ActionItemFields(Some(items[j].description), Some(items[j].status)))
  }

  /** The fields that describe a stored post-mortem. */
  function FieldsOf(p: PostMortem): (f: PostMortemFields)
    ensures f.incidentId == p.incidentId && f.createdBy == p.createdBy
    ensures f.actionItems.Some? && |f.actionItems.value| == |p.actionItems|
  {
    PostMortemFields(
      p.incidentId,
      Some(p.rootCause),
      Some(p.impact),
      Some(ItemFieldsOf(p.actionItems)),
      Some(p.lessonsLearned),
      p.createdBy)
  }

  /** What `create` must be given: the four required paths, a root cause and
      an impact that are not blank, and valid action items. */
  predicate CreatableFrom(f: PostMortemFields) {
    && f.incidentId.Some?
    && f.rootCause.Some? && |Trim(f.rootCause.value)| > 0
    && f.impact.Some? && |Trim(f.impact.value)| > 0
    && f.createdBy.Some?
    && (f.actionItems.Some? ==> ActionItemFieldsAllValid(f.actionItems.value))
  }

  /** The built document passes validation exactly when the fields given are
      creatable: a missing or blank required path, an action item without a
      description or with a status outside the enumeration, each makes the
      `create` fail. */
  lemma NewPostMortemValidIff(f: PostMortemFields, id: nat)
    ensures PostMortemValid(NewPostMortem(f, id)) <==> CreatableFrom(f)
  {
    TrimOfMissing(f.rootCause);
    TrimOfMissing(f.impact);
    NewActionItemsValidIff(f.actionItems.UnwrapOr([]));
  }

  /** Where the caller gives no value: no action items, lessons learned '',
      and every action item's status 'Pending'. */
  lemma NewPostMortemDefaults(f: PostMortemFields, id: nat)
    ensures f.actionItems.None? ==> NewPostMortem(f, id).actionItems == []
    ensures f.lessonsLearned.None? ==> NewPostMortem(f, id).lessonsLearned == DefaultLessonsLearned
    ensures f.actionItems.Some? ==> forall j | 0 <= j < |f.actionItems.value| ::
      (f.actionItems.value[j].status.None? ==>
        NewPostMortem(f, id).actionItems[j].status == DefaultActionStatus)
  {
    if f.lessonsLearned.None? {
      TrimOfTrimmed(DefaultLessonsLearned);
    }
  }

  /** Every string the setters touch is stored trimmed. */
  lemma NewPostMortemTrimmed(f: PostMortemFields, id: nat)
    ensures PostMortemTrimmed(NewPostMortem(f, id))
  {
    var p := NewPostMortem(f, id);
    TrimIsTrimmed(f.rootCause.UnwrapOr(""));
    TrimIsTrimmed(f.impact.UnwrapOr(""));
    TrimIsTrimmed(f.lessonsLearned.UnwrapOr(DefaultLessonsLearned));
    forall j | 0 <= j < |p.actionItems|
      ensures IsTrimmed(p.actionItems[j].description)
    {
      TrimIsTrimmed(f.actionItems.value[j].description.UnwrapOr(""));
    }
  }

  /** Rebuilding stored, trimmed action items from their fields gives them
      back. */
  lemma RebuildItems(items: seq<ActionItem>)
    requires forall j | 0 <= j < |items| :: IsTrimmed(items[j].description)
    ensures NewActionItems(ItemFieldsOf(items)) == items
  {
    var built := NewActionItems(ItemFieldsOf(items));
    forall j | 0 <= j < |items|
      ensures built[j] == items[j]
    {
      TrimOfTrimmed(items[j].description);
    }
  }

  /** Building a post-mortem from the fields of a stored, trimmed one gives
      it back: the setters and defaults change nothing that is already in
      stored form. */
  lemma RebuildIsIdentity(p: PostMortem)
    requires PostMortemTrimmed(p)
    ensures NewPostMortem(FieldsOf(p), p.id) == p
  {
    TrimOfTrimmed(p.rootCause);
    TrimOfTrimmed(p.impact);
    TrimOfTrimmed(p.lessonsLearned);
    RebuildItems(p.actionItems);
  }

  /** So a stored, trimmed post-mortem is valid exactly when its own fields
      could create it. */
  lemma StoredValidIffCreatable(p: PostMortem)
    requires PostMortemTrimmed(p)
    ensures PostMortemValid(p) <==> CreatableFrom(FieldsOf(p))
  {
    RebuildIsIdentity(p);
    NewPostMortemValidIff(FieldsOf(p), p.id);
  }

  /** A root cause of spaces alone is trimmed to "" and refused. */
  lemma BlankRootCauseFails(f: PostMortemFields, id: nat)
    requires f.rootCause == Some("   ")
    ensures !PostMortemValid(NewPostMortem(f, id))
  {
    assert Trim("   ") == "" by {
      assert TrimStart("   ") == [];
    }
  }
}
