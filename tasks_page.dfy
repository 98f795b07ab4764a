/** The read-only task list page: its status button walks a task around PENDING, IN_PROGRESS and
    DONE, and does nothing for ARCHIVED or any other value. */
module TasksPage {
  import opened Optional
  import opened TaskSchema
  import opened TaskManagerPage

  /** The status the button requests for a task whose status reads `s`, if any. */
  function RequestedStatus(s: string): (r: Option<Status>)
    ensures s == "DONE" <==> r == Some(Pending)
    ensures s == "PENDING" <==> r == Some(InProgress)
    ensures s == "IN_PROGRESS" <==> r == Some(Done)
    ensures r != Some(Archived)
  {
    if s == "DONE" then Some(Pending)
    else if s == "PENDING" then Some(InProgress)
    else if s == "IN_PROGRESS" then Some(Done)
    else None
  }

  /** The button on a task whose status is `s`. */
  function Pressed(s: Status): (r: Option<Status>)
    ensures r.None? <==> s == Archived
  {
    RequestedStatus(StatusName(s))
  }

  /** Three presses bring every non-archived status back, and no fewer do. */
  lemma ThreeCycle(s: Status)
    requires s != Archived
    ensures Pressed(s).Some? && Pressed(s).value != s
    ensures Pressed(Pressed(s).value).Some? && Pressed(Pressed(s).value).value != s
    ensures Pressed(Pressed(Pressed(s).value).value) == Some(s)
  {
  }

  /** This page and the task-manager page agree on PENDING and IN_PROGRESS; on DONE this page
      goes back to PENDING where the other archives, and on ARCHIVED only the other one acts. */
  lemma AgreesWithTaskManagerPage(s: Status)
    ensures Pressed(s) == Some(NextStatus(s)) <==> s == Pending || s == InProgress
  {
  }
}
