/** The rules both back-end façades (the GraphQL resolvers and the REST task controller)
    apply to the title and description a request carries, before the document is saved. */
module TaskEdits {
  import opened Optional
  import opened Text
  import opened TaskSchema
  import opened Database

  /** `description?.trim()` when a task is created: a blank description stays present, as `""`. */
  function CreatedDescription(d: Option<string>): (r: Option<string>)
    ensures r.Some? <==> d.Some?
    ensures r.Some? ==> r.value == Trim(d.value) && IsTrimmed(r.value)
  {
    if d.Some? then Some(Trim(d.value)) else None
  }

  /** `description?.trim() || undefined` when a task is updated: a blank description is removed. */
  function UpdatedDescription(d: string): (r: Option<string>)
    ensures r.None? <==> IsBlank(d)
    ensures r.Some? ==> r.value == Trim(d) && IsTrimmed(r.value) && r.value != ""
  {
    if Trim(d) == "" then None else Some(Trim(d))
  }

  /** The two rules disagree exactly on blank descriptions: creation keeps `""`, update drops it. */
  lemma DescriptionRulesDifferOnBlank(d: string)
    ensures CreatedDescription(Some(d)) == Some("") <==> UpdatedDescription(d).None?
    ensures !IsBlank(d) ==> CreatedDescription(Some(d)) == UpdatedDescription(d)
  {
  }

  /** Normalising a description twice gives what normalising once gave. */
  lemma UpdatedDescriptionIdempotent(d: string)
    requires UpdatedDescription(d).Some?
    ensures UpdatedDescription(UpdatedDescription(d).value) == UpdatedDescription(d)
  {
    TrimFixpoint(d);
  }

  /** An argument of an update request, whose nullable fields the handlers test only with
      `!== undefined`: left out, sent as `null`, or sent with a value. */
  datatype Arg<T> = Absent | Null | Given(value: T)

  /** The value an argument carries, if it carries one. */
  function Sent<T>(a: Arg<T>): (r: Option<T>)
    ensures r.Some? <==> a.Given?
    ensures r.Some? ==> r.value == a.value
  {
    if a.Given? then Some(a.value) else None
  }

  /** The description an update leaves on a task whose description is `current`: kept when the
      argument is left out; otherwise `description?.trim() || undefined`, so an explicit `null`
      removes it. */
  function AssignedDescription(current: Option<string>, d: Arg<string>): (r: Option<string>)
    ensures d.Absent? ==> r == current
    ensures d.Null? ==> r.None?
    ensures d.Given? ==> r == UpdatedDescription(d.value)
  {
    match d
    case Absent => current
    case Null => None
    case Given(s) => UpdatedDescription(s)
  }

  /** Sending `null` as the description has the effect of sending a blank one, and only a
      blank one: both remove the description. */
  lemma NullDescriptionIsBlank(current: Option<string>, s: string)
    ensures AssignedDescription(current, Given(s)) == AssignedDescription(current, Null) <==> IsBlank(s)
  {
  }

  /** The field assignments of an update, once the handler has refused a blank or `null` title:
      `task.title = title.trim()` when a title was sent, and the description per
      `AssignedDescription`. */
  function EditTask(t: Task, title: Option<string>, description: Arg<string>): (r: Task)
    ensures r.(title := t.title, description := t.description) == t
    ensures r.title == if title.Some? then Trim(title.value) else t.title
    ensures description.Absent? ==> r.description == t.description
    ensures description.Null? ==> r.description.None?
    ensures description.Given? ==> r.description == UpdatedDescription(description.value)
  {
    t.(title := if title.Some? then Trim(title.value) else t.title,
       description := AssignedDescription(t.description, description))
  }

  /** An edit that sends no field leaves the document as it was, so its save changes nothing. */
  lemma EmptyEditIsNoChange(t: Task)
    ensures EditTask(t, None, Absent) == t
  {
  }

  /** An edit of a valid task with a non-blank title and a description within bounds passes the
      schema's validators, so its save cannot fail. */
  lemma EditKeepsValid(t: Task, title: Option<string>, description: Arg<string>)
    requires ValidTask(t)
    requires title.Some? ==> !IsBlank(title.value) && Utf16Length(Trim(title.value)) <= MaxTitleLength
    requires description.Given? ==> Utf16Length(Trim(description.value)) <= MaxDescriptionLength
    ensures ValidTask(EditTask(t, title, description))
  {
    if title.Some? {
      TrimFixpoint(title.value);
    }
  }

  /** What a successful save of an edit stores: the edited fields, and everything else as it was. */
  lemma SavedEdit(t: Task, title: Option<string>, description: Arg<string>, now: Time)
    requires ValidTask(t)
    requires SaveOf(t, EditTask(t, title, description), now).Some?
    ensures var r := SaveOf(t, EditTask(t, title, description), now).value;
      && r.id == t.id && r.userId == t.userId && r.status == t.status && r.createdAt == t.createdAt
      && r.title == (if title.Some? then Trim(title.value) else t.title)
      && r.description == AssignedDescription(t.description, description)
  {
    if title.Some? {
      TrimFixpoint(title.value);
    }
    if description.Given? {
      TrimFixpoint(description.value);
    }
  }

  /** Setting the status of a stored task always saves, and changes nothing but the status
      (and `updatedAt`, when the status is a different one). */
  lemma StatusChangeSaves(t: Task, s: Status, now: Time)
    requires ValidTask(t)
    ensures SaveOf(t, t.(status := s), now) == Some(t.(status := s, updatedAt := if s == t.status then t.updatedAt else now))
  {
  }
}
