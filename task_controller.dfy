/** The REST façade over tasks. Each handler first turns away a request without a token
    subject (401), then resolves the subject to a user by its external id (404 when none),
    and only then touches a task, always through the filter `{ _id: id, userId: user }`. */
module TaskController {
  import opened Optional
  import opened Text
  import opened TaskSchema
  import opened UserSchema
  import opened Database
  import opened TaskEdits
  import opened Http

  /** The user a request acts for: `User.findOne({ auth0Id: sub })`. */
  function CallerOf(db: Db, auth: Option<Claims>): (r: Option<User>)
    reads db
    requires db.Valid()
    ensures Subject(auth).None? ==> r.None?
    ensures r.Some? ==> r.value.id in db.users && db.users[r.value.id] == r.value && r.value.auth0Id == Subject(auth)
  {
    if Subject(auth).None? then None
    else
      var u := db.FindUser([ByAuth0Id(Subject(auth).value)]);
      assert u.Some? ==> MatchesFilter(u.value, ByAuth0Id(Subject(auth).value));
      u
  }

  const AuthRequiredReply: Reply<Task> := Reply(UNAUTHORIZED, Error("Authentication required"))
  const UserNotFoundReply: Reply<Task> := Reply(NOT_FOUND, Error("User not found"))
  const TaskNotFoundReply: Reply<Task> := Reply(NOT_FOUND, Error("Task not found"))

  /** `POST /tasks` */
  method CreateTask(db: Db, auth: Option<Claims>, title: Option<string>, description: Option<string>, now: Time)
    returns (r: Reply<Task>)
    requires db.Valid()
    modifies db
    ensures db.Valid() && db.users == old(db.users)
    ensures Subject(auth).None? ==> r == AuthRequiredReply
    ensures Subject(auth).Some? && old(CallerOf(db, auth)).None? ==> r == UserNotFoundReply
    ensures old(CallerOf(db, auth)).Some? && (title.None? || IsBlank(title.value)) ==>
      r == Reply(BAD_REQUEST, Error("Title is required"))
    ensures old(CallerOf(db, auth)).Some? && title.Some? && !IsBlank(title.value) ==>
      var v := Validate(Task(old(db.nextTaskId), Trim(title.value), CreatedDescription(description), Pending,
                             old(CallerOf(db, auth)).value.id, now, now));
      r == if v.Some? then Reply(CREATED, Json(v.value)) else Reply(INTERNAL_SERVER_ERROR, Error("Failed to create task"))
    ensures r.code == CREATED ==>
      r.body.Json? && r.body.value.id !in old(db.tasks) && db.tasks == old(db.tasks)[r.body.value.id := r.body.value]
    ensures r.code != CREATED ==> db.tasks == old(db.tasks)
  {
    var user := CallerOf(db, auth);
    if Subject(auth).None? {
      return AuthRequiredReply;
    }
    if user.None? {
      return UserNotFoundReply;
    }
    if title.None? || Trim(title.value) == "" {
      return Reply(BAD_REQUEST, Error("Title is required"));
    }
    var saved := db.InsertTask(Trim(title.value), CreatedDescription(description), Pending, user.value.id, now);
    if saved.None? {
      return Reply(INTERNAL_SERVER_ERROR, Error("Failed to create task"));
    }
    r := Reply(CREATED, Json(saved.value));
  }

  /** `GET /tasks`: exactly the resolved user's tasks, most recently updated first. */
  method GetTasks(db: Db, auth: Option<Claims>) returns (r: Reply<seq<Task>>)
    requires db.Valid()
    ensures Subject(auth).None? ==> r == Reply(UNAUTHORIZED, Error("Authentication required"))
    ensures Subject(auth).Some? && CallerOf(db, auth).None? ==> r == Reply(NOT_FOUND, Error("User not found"))
    ensures CallerOf(db, auth).Some? ==>
      && r.code == OK && r.body.Json?
      && SortedByRecency(r.body.value)
      && multiset(r.body.value) == multiset(db.OwnedTasks(CallerOf(db, auth).value.id))
  {
    var user := CallerOf(db, auth);
    if Subject(auth).None? {
      return Reply(UNAUTHORIZED, Error("Authentication required"));
    }
    if user.None? {
      return Reply(NOT_FOUND, Error("User not found"));
    }
    var tasks := db.FindTasksByOwner(user.value.id);
    r := Reply(OK, Json(tasks));
  }

  /** `PUT /tasks/:id`: only the fields sent change. A JSON `null` title reaches `title.trim()`,
      whose TypeError the catch answers with 500; a blank title is refused; in both cases nothing
      is saved. A blank or `null` description removes the description. */
  method UpdateTask(db: Db, auth: Option<Claims>, id: TaskId, title: Arg<string>, description: Arg<string>, now: Time)
    returns (r: Reply<Task>)
    requires db.Valid()
    modifies db
    ensures db.Valid() && db.users == old(db.users)
    ensures Subject(auth).None? ==> r == AuthRequiredReply
    ensures Subject(auth).Some? && old(CallerOf(db, auth)).None? ==> r == UserNotFoundReply
    ensures old(CallerOf(db, auth)).Some? && !Owns(old(db.tasks), id, old(CallerOf(db, auth)).value.id) ==>
      r == TaskNotFoundReply
    ensures old(CallerOf(db, auth)).Some? && Owns(old(db.tasks), id, old(CallerOf(db, auth)).value.id) &&
            title.Null? ==>
      r == Reply(INTERNAL_SERVER_ERROR, Error("Failed to update task"))
    ensures old(CallerOf(db, auth)).Some? && Owns(old(db.tasks), id, old(CallerOf(db, auth)).value.id) &&
            title.Given? && IsBlank(title.value) ==>
      r == Reply(BAD_REQUEST, Error("Title cannot be empty"))
    ensures old(CallerOf(db, auth)).Some? && Owns(old(db.tasks), id, old(CallerOf(db, auth)).value.id) &&
            !title.Null? && !(title.Given? && IsBlank(title.value)) ==>
      var saved := SaveOf(old(db.tasks)[id], EditTask(old(db.tasks)[id], Sent(title), description), now);
      r == if saved.Some? then Reply(OK, Json(saved.value)) else Reply(INTERNAL_SERVER_ERROR, Error("Failed to update task"))
    ensures r.code == OK ==> (
      && r.body.Json?
      && id in old(db.tasks)
      && db.tasks == old(db.tasks)[id := r.body.value]
      && var t := old(db.tasks)[id];
      && r.body.value.id == id && r.body.value.userId == t.userId && r.body.value.status == t.status
      && r.body.value.createdAt == t.createdAt
      && r.body.value.title == (if title.Given? then Trim(title.value) else t.title)
      && r.body.value.description == AssignedDescription(t.description, description))
    ensures r.code != OK ==> db.tasks == old(db.tasks)
  {
    var user := CallerOf(db, auth);
    if Subject(auth).None? {
      return AuthRequiredReply;
    }
    if user.None? {
      return UserNotFoundReply;
    }
    var found := db.FindTask(id, user.value.id);
    if found.None? {
      return TaskNotFoundReply;
    }
    if title.Null? {
      return Reply(INTERNAL_SERVER_ERROR, Error("Failed to update task"));
    }
    if title.Given? && Trim(title.value) == "" {
      return Reply(BAD_REQUEST, Error("Title cannot be empty"));
    }
    var saved := db.SaveTask(EditTask(found.value, Sent(title), description), now);
    if saved.None? {
      return Reply(INTERNAL_SERVER_ERROR, Error("Failed to update task"));
    }
    SavedEdit(found.value, Sent(title), description, now);
    r := Reply(OK, Json(saved.value));
  }

  /** `DELETE /tasks/:id`: removes the task only when it belongs to the resolved user. */
  method DeleteTask(db: Db, auth: Option<Claims>, id: TaskId) returns (r: Reply<Task>)
    requires db.Valid()
    modifies db
    ensures db.Valid() && db.users == old(db.users)
    ensures Subject(auth).None? ==> r == AuthRequiredReply
    ensures Subject(auth).Some? && old(CallerOf(db, auth)).None? ==> r == UserNotFoundReply
    ensures old(CallerOf(db, auth)).Some? ==>
      r == if Owns(old(db.tasks), id, old(CallerOf(db, auth)).value.id)
           then Reply(OK, Message("Task deleted successfully"))
           else TaskNotFoundReply
    ensures db.tasks == if r.code == OK then old(db.tasks) - {id} else old(db.tasks)
  {
    var user := CallerOf(db, auth);
    if Subject(auth).None? {
      return AuthRequiredReply;
    }
    if user.None? {
      return UserNotFoundReply;
    }
    var deleted := db.FindOneAndDeleteTask(id, user.value.id);
    if deleted.None? {
      return TaskNotFoundReply;
    }
    r := Reply(OK, Message("Task deleted successfully"));
  }

  /** `PATCH /tasks/:id/status`: a missing or unknown status is refused before the task lookup;
      otherwise only the status changes, and the save cannot fail. */
  method ChangeTaskStatus(db: Db, auth: Option<Claims>, id: TaskId, status: Option<string>, now: Time)
    returns (r: Reply<Task>)
    requires db.Valid()
    modifies db
    ensures db.Valid() && db.users == old(db.users)
    ensures Subject(auth).None? ==> r == AuthRequiredReply
    ensures Subject(auth).Some? && old(CallerOf(db, auth)).None? ==> r == UserNotFoundReply
    ensures old(CallerOf(db, auth)).Some? && (status.None? || status.value !in StatusNames) ==>
      r == Reply(BAD_REQUEST, Error("Valid status is required (PENDING, IN_PROGRESS, DONE, ARCHIVED)"))
    ensures old(CallerOf(db, auth)).Some? && status.Some? && status.value in StatusNames &&
            !Owns(old(db.tasks), id, old(CallerOf(db, auth)).value.id) ==>
      r == TaskNotFoundReply
    ensures old(CallerOf(db, auth)).Some? && status.Some? && status.value in StatusNames &&
            Owns(old(db.tasks), id, old(CallerOf(db, auth)).value.id) ==>
      var t := old(db.tasks)[id];
      var s := ParseStatus(status.value).value;
      r == Reply(OK, Json(t.(status := s, updatedAt := if s == t.status then t.updatedAt else now)))
    ensures db.tasks == if r.code == OK then old(db.tasks)[id := r.body.value] else old(db.tasks)
  {
    var user := CallerOf(db, auth);
    if Subject(auth).None? {
      return AuthRequiredReply;
    }
    if user.None? {
      return UserNotFoundReply;
    }
    if status.None? || ParseStatus(status.value).None? {
      return Reply(BAD_REQUEST, Error("Valid status is required (PENDING, IN_PROGRESS, DONE, ARCHIVED)"));
    }
    var s := ParseStatus(status.value).value;
    var found := db.FindTask(id, user.value.id);
    if found.None? {
      return TaskNotFoundReply;
    }
    StatusChangeSaves(found.value, s, now);
    var saved := db.SaveTask(found.value.(status := s), now);
    if saved.None? {
      assert false;
      return Reply(INTERNAL_SERVER_ERROR, Error("Failed to change task status"));
    }
    r := Reply(OK, Json(saved.value));
  }
}
