/** The Task model: the status enumeration and the schema's field rules, as the
    values a saved task document can hold. */
module TaskSchema {
  import opened Optional
  import opened Text

  /** Document ids and instants are abstract: ids are handed out by the store, instants by its clock. */
  type TaskId = nat
  type UserId = nat
  type Time = nat

  datatype Status = Pending | InProgress | Done | Archived

  /** The names a status has on the wire and in the database. */
  const StatusNames: set<string> := {"PENDING", "IN_PROGRESS", "DONE", "ARCHIVED"}

  /** The schema's `default` for status. */
  const DefaultStatus: Status := Pending

  function StatusName(s: Status): (r: string)
    ensures r in StatusNames
  {
    match s
    case Pending => "PENDING"
    case InProgress => "IN_PROGRESS"
    case Done => "DONE"
    case Archived => "ARCHIVED"
  }

  /** The membership test `['PENDING', 'IN_PROGRESS', 'DONE', 'ARCHIVED'].includes(s)`,
      returning the status named when it succeeds. */
  function ParseStatus(s: string): (r: Option<Status>)
    ensures r.Some? <==> s in StatusNames
    ensures r.Some? ==> StatusName(r.value) == s
  {
    if s == "PENDING" then Some(Pending)
    else if s == "IN_PROGRESS" then Some(InProgress)
    else if s == "DONE" then Some(Done)
    else if s == "ARCHIVED" then Some(Archived)
    else None
  }

  /** Every status survives a trip through its name. */
  lemma StatusNameRoundTrip(s: Status)
    ensures ParseStatus(StatusName(s)) == Some(s)
  {
  }

  const MaxTitleLength: nat := 200
  const MaxDescriptionLength: nat := 1000

  /** A task document. `createdAt` and `updatedAt` are the schema's `timestamps: true` fields. */
  datatype Task = Task(
    id: TaskId,
    title: string,
    description: Option<string>,
    status: Status,
    userId: UserId,
    createdAt: Time,
    updatedAt: Time)

  /** The `trim: true` setters of title and description: they run whenever a field is assigned. */
  function ApplySetters(t: Task): (r: Task)
    ensures IsTrimmed(r.title) && (r.description.Some? ==> IsTrimmed(r.description.value))
    ensures r.description.Some? == t.description.Some?
    ensures r.(title := t.title, description := t.description) == t
    ensures IsTrimmed(t.title) && (t.description.Some? ==> IsTrimmed(t.description.value)) ==> r == t
  {
    TrimFixpoint(t.title);
    TrimFixpoint(t.description.GetOr(""));
    t.(title := Trim(t.title), description := if t.description.Some? then Some(Trim(t.description.value)) else None)
  }

  /** The schema's validators: `required` title (a non-empty string), `maxlength` 200 on the title
      and 1000 on the description, counted in UTF-16 code units as JavaScript does. The status
      enumeration and the required `userId` hold by typing. */
  function PassesValidators(t: Task): (r: bool)
    ensures r ==> 0 < |t.title| <= MaxTitleLength
    ensures r && t.description.Some? ==> |t.description.value| <= MaxDescriptionLength
  {
    && t.title != ""
    && Utf16Length(t.title) <= MaxTitleLength
    && (t.description.Some? ==> Utf16Length(t.description.value) <= MaxDescriptionLength)
  }

  /** What every stored task satisfies: the setters' output that passed the validators. */
  predicate ValidTask(t: Task) {
    && IsTrimmed(t.title)
    && (t.description.Some? ==> IsTrimmed(t.description.value))
    && PassesValidators(t)
  }

  /** `document.validate()` as `save()` runs it: `None` is a ValidationError, and nothing is
      written; otherwise the value that is written. */
  function Validate(t: Task): (r: Option<Task>)
    ensures r.Some? <==> PassesValidators(ApplySetters(t))
    ensures r.Some? ==> ValidTask(r.value) && r.value == ApplySetters(t) && r.value.title == Trim(t.title)
    ensures r.Some? ==> r.value.(title := t.title, description := t.description) == t
    ensures ValidTask(t) ==> r == Some(t)
  {
    var c := ApplySetters(t);
    if PassesValidators(c) then Some(c) else None
  }
}
