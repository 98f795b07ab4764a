/** The task form shared by the create and edit views: it starts from the task being edited (or
    from nothing) and submits a normalised title and description. */
module TaskForm {
  import opened Optional
  import opened Text
  import opened TaskSchema
  import opened TaskEdits

  /** A task as the client receives it from the API (`description?: string | null`). */
  datatype ClientTask = ClientTask(id: string, title: string, description: Option<string>, status: Status)

  /** `{ title, description? }` handed to `onSubmit`. */
  datatype Submission = Submission(title: string, description: Option<string>)

  /** `initialTask?.title ?? ''` */
  function InitialTitle(initialTask: Option<ClientTask>): (r: string)
    ensures initialTask.None? ==> r == ""
    ensures initialTask.Some? ==> r == initialTask.value.title
  {
    if initialTask.Some? then initialTask.value.title else ""
  }

  /** `initialTask?.description ?? ''` */
  function InitialDescription(initialTask: Option<ClientTask>): (r: string)
    ensures initialTask.None? || initialTask.value.description.None? ==> r == ""
    ensures initialTask.Some? && initialTask.value.description.Some? ==> r == initialTask.value.description.value
  {
    if initialTask.Some? && initialTask.value.description.Some? then initialTask.value.description.value else ""
  }

  /** What `handleSubmit` hands over: nothing for a blank title; otherwise the trimmed title and
      `description.trim() || undefined`. */
  function Normalize(title: string, description: string): (r: Option<Submission>)
    ensures r.None? <==> IsBlank(title)
    ensures r.Some? ==> r.value.title == Trim(title) && r.value.description == UpdatedDescription(description)
  {
    if Trim(title) == "" then None else Some(Submission(Trim(title), UpdatedDescription(description)))
  }

  /** What is submitted is already in the form the server stores: a trimmed non-empty title, and
      a description the server's update rule leaves exactly as it is. */
  lemma SubmissionIsStoredAsSent(title: string, description: string)
    requires Normalize(title, description).Some?
    ensures var s := Normalize(title, description).value;
      && s.title != "" && Trim(s.title) == s.title
      && (s.description.Some? ==> UpdatedDescription(s.description.value) == s.description)
  {
    TrimFixpoint(title);
    if UpdatedDescription(description).Some? {
      UpdatedDescriptionIdempotent(description);
    }
  }

  /** Opening a stored task for editing and submitting it untouched sends back its own title and
      description. */
  lemma UneditedSubmitResendsTask(t: ClientTask)
    requires t.title != "" && IsTrimmed(t.title)
    requires t.description.Some? ==> t.description.value != "" && IsTrimmed(t.description.value)
    ensures Normalize(InitialTitle(Some(t)), InitialDescription(Some(t))) == Some(Submission(t.title, t.description))
  {
    TrimFixesTrimmed(t.title);
    if t.description.Some? {
      TrimFixesTrimmed(t.description.value);
    } else {
      assert Trim("") == "";
    }
  }

  /** The form's two text fields, and the task it was opened with. */
  class FormState {
    const initialTask: Option<ClientTask>
    var title: string
    var description: string

    constructor(initialTask: Option<ClientTask>)
      ensures this.initialTask == initialTask
      ensures title == InitialTitle(initialTask) && description == InitialDescription(initialTask)
    {
      this.initialTask := initialTask;
      title := InitialTitle(initialTask);
      description := InitialDescription(initialTask);
    }

    /** `handleSubmit`: hands over the normalised fields (or nothing for a blank title), and
        clears the fields after a submission only when creating. */
    method HandleSubmit() returns (sent: Option<Submission>)
      modifies this
      ensures sent == Normalize(old(title), old(description))
      ensures sent.Some? && initialTask.None? ==> title == "" && description == ""
      ensures !(sent.Some? && initialTask.None?) ==> title == old(title) && description == old(description)
    {
      sent := Normalize(title, description);
      if sent.Some? && initialTask.None? {
        title := "";
        description := "";
      }
    }
  }
}
