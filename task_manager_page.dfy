/** The task-manager page: a status button that walks a task around all four statuses, and the
    create/edit form whose submissions become API mutations. */
module TaskManagerPage {
  import opened Optional
  import opened TaskSchema
  import opened TaskForm

  /** The status the toggle requests: PENDING, IN_PROGRESS, DONE, ARCHIVED and back to PENDING. */
  function NextStatus(s: Status): (r: Status)
    ensures r != s
    ensures s == Archived <==> r == Pending
    ensures s == Done <==> r == Archived
  {
    match s
    case Pending => InProgress
    case InProgress => Done
    case Done => Archived
    case Archived => Pending
  }

  /** `n` presses of the toggle, each on the task as the previous one left it. */
  function Toggled(s: Status, n: nat): Status
    decreases n
  {
    if n == 0 then s else Toggled(NextStatus(s), n - 1)
  }

  /** Every status comes back after four presses. */
  lemma FourPressesReturn(s: Status)
    ensures Toggled(s, 4) == s
  {
  }

  /** A whole number of rounds of four presses leaves every status where it was. */
  lemma {:induction false} RoundsReturn(s: Status, k: nat)
    ensures Toggled(s, 4 * k) == s
  {
    if k > 0 {
      assert Toggled(s, 4 * k) == Toggled(Toggled(s, 4), 4 * (k - 1)) by {
        TogglesCompose(s, 4, 4 * (k - 1));
      }
      FourPressesReturn(s);
      RoundsReturn(s, k - 1);
    }
  }

  lemma {:induction false} TogglesCompose(s: Status, m: nat, n: nat)
    ensures Toggled(s, m + n) == Toggled(Toggled(s, m), n)
    decreases m
  {
    if m > 0 {
      TogglesCompose(NextStatus(s), m - 1, n);
    }
  }

  /** Fewer than four presses never bring a status back: the cycle visits all four. */
  lemma NoShorterCycle(s: Status, n: nat)
    requires 0 < n < 4
    ensures Toggled(s, n) != s
  {
    var s1 := NextStatus(s);
    var s2 := NextStatus(s1);
    var s3 := NextStatus(s2);
    assert Toggled(s, 1) == s1 && Toggled(s, 2) == s2 && Toggled(s, 3) == s3;
    match s
    case Pending =>
    case InProgress =>
    case Done =>
    case Archived =>
  }

  /** The toggle is one-to-one: two statuses that request the same next status are the same. */
  lemma NextStatusInjective(a: Status, b: Status)
    ensures NextStatus(a) == NextStatus(b) ==> a == b
  {
  }

  /** The page's read-only flag is set exactly when the task pressed was IN_PROGRESS, that is,
      exactly when the toggle asks for DONE. The form never receives the flag. */
  function ReadOnlyAfterToggle(s: Status): (r: bool)
    ensures r <==> NextStatus(s) == Done
  {
    s == InProgress
  }

  /** The mutations the page fires at the API. */
  datatype Mutation =
    | CreateTask(title: string, description: Option<string>)
    | UpdateTask(id: string, title: string, description: Option<string>)
    | ChangeTaskStatus(id: string, status: Status)

  /** The page's state cells, and the mutations fired so far. */
  class PageState {
    var editing: Option<ClientTask>
    var isFormReadOnly: bool
    var sent: seq<Mutation>

    constructor()
      ensures editing.None? && !isFormReadOnly && sent == []
    {
      editing := None;
      isFormReadOnly := false;
      sent := [];
    }

    /** `onEdit={setEditing}`: open a task in the form. */
    method StartEditing(task: ClientTask)
      modifies this
      ensures editing == Some(task) && isFormReadOnly == old(isFormReadOnly) && sent == old(sent)
    {
      editing := Some(task);
    }

    /** `onCancel`: close the task without sending anything. */
    method CancelEditing()
      modifies this
      ensures editing.None? && isFormReadOnly == old(isFormReadOnly) && sent == old(sent)
    {
      editing := None;
    }

    /** `handleCreate`: fires one create with the form's submission. */
    method HandleCreate(input: Submission)
      modifies this
      ensures sent == old(sent) + [CreateTask(input.title, input.description)]
      ensures editing == old(editing) && isFormReadOnly == old(isFormReadOnly)
    {
      sent := sent + [CreateTask(input.title, input.description)];
    }

    /** `handleEdit`: with no task open, nothing happens; otherwise one update for the open
        task's id, and the form closes. */
    method HandleEdit(input: Submission)
      modifies this
      ensures old(editing).None? ==> editing == old(editing) && sent == old(sent)
      ensures old(editing).Some? ==>
        sent == old(sent) + [UpdateTask(old(editing).value.id, input.title, input.description)] && editing.None?
      ensures isFormReadOnly == old(isFormReadOnly)
    {
      if editing.None? {
        return;
      }
      sent := sent + [UpdateTask(editing.value.id, input.title, input.description)];
      editing := None;
    }

    /** `handleToggleStatus`: sets the read-only flag from the pressed task's status and fires one
        status change to the next status of the cycle. */
    method HandleToggleStatus(task: ClientTask)
      modifies this
      ensures isFormReadOnly == ReadOnlyAfterToggle(task.status)
      ensures sent == old(sent) + [ChangeTaskStatus(task.id, NextStatus(task.status))]
      ensures editing == old(editing)
    {
      if task.status != InProgress {
        isFormReadOnly := false;
      } else {
        isFormReadOnly := true;
      }
      var next: Status;
      if task.status == Pending {
        next := InProgress;
      } else if task.status == InProgress {
        next := Done;
      } else if task.status == Done {
        next := Archived;
      } else {
        next := Pending;
      }
      sent := sent + [ChangeTaskStatus(task.id, next)];
    }
  }
}
