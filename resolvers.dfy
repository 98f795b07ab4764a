/** The GraphQL façade: the `Query` and `Mutation` resolvers over the shared store. The caller
    is the `userId` the request context took from a verified session token, or none; signing and
    verifying tokens is outside the model. */
module Resolvers {
  import opened Optional
  import opened Text
  import opened TaskSchema
  import opened UserSchema
  import opened Database
  import opened TaskEdits

  /** The errors a resolver throws. */
  datatype Failure =
    | AuthRequired
    | UserNotFound
    | UserExists
    | BadCredentials
    | PasswordCheckFailed  // bcrypt raised: the matched user has no stored password
    | TitleRequired
    | TitleEmpty
    | NullTitle            // `title.trim()` on an explicit `null` raised a TypeError
    | InvalidStatus
    | TaskNotFound
    | ValidationFailed     // `save()` raised a ValidationError

  /** The message of each error the resolvers throw themselves; `None` for those a library raises. */
  function Message(f: Failure): (r: Option<string>)
    ensures r.None? <==> f.PasswordCheckFailed? || f.NullTitle? || f.ValidationFailed?
    ensures r.Some? ==> r.value != ""
  {
    match f
    case AuthRequired => Some("Authentication required")
    case UserNotFound => Some("User not found")
    case UserExists => Some("User already exists with this email or username")
    case BadCredentials => Some("Invalid email/username or password")
    case TitleRequired => Some("Title is required")
    case TitleEmpty => Some("Title cannot be empty")
    case InvalidStatus => Some("Valid status is required (PENDING, IN_PROGRESS, DONE, ARCHIVED)")
    case TaskNotFound => Some("Task not found")
    case PasswordCheckFailed => None
    case NullTitle => None
    case ValidationFailed => None
  }

  datatype Result<T> = Ok(value: T) | Err(failure: Failure)

  /** The claims `generateToken` signs. */
  datatype SessionToken = SessionToken(userId: UserId, email: string, username: string)

  datatype AuthPayload = AuthPayload(token: SessionToken, user: PublicUser)

  /** The payload of a successful registration or login: a token for the user and its public fields. */
  function PayloadFor(u: User): (r: AuthPayload)
    ensures r.user == Public(u)
    ensures r.token.userId == u.id && r.token.email == u.email && r.token.username == u.username
  {
    AuthPayload(SessionToken(u.id, u.email, u.username), Public(u))
  }

  /** `Query.me` */
  method Me(db: Db, userId: Option<UserId>) returns (r: Result<PublicUser>)
    ensures userId.None? ==> r == Err(AuthRequired)
    ensures userId.Some? ==> r == if userId.value in db.users then Ok(Public(db.users[userId.value])) else Err(UserNotFound)
  {
    if userId.None? {
      return Err(AuthRequired);
    }
    var u := db.FindUserById(userId.value);
    if u.None? {
      return Err(UserNotFound);
    }
    r := Ok(Public(u.value));
  }

  /** `Query.tasks`: exactly the caller's tasks, most recently updated first. */
  method ListTasks(db: Db, userId: Option<UserId>) returns (r: Result<seq<Task>>)
    requires db.Valid()
    ensures userId.None? ==> r == Err(AuthRequired)
    ensures userId.Some? ==> r.Ok? && SortedByRecency(r.value) && multiset(r.value) == multiset(db.OwnedTasks(userId.value))
  {
    if userId.None? {
      return Err(AuthRequired);
    }
    var tasks := db.FindTasksByOwner(userId.value);
    r := Ok(tasks);
  }

  /** `Query.task`: a task of another user is reported exactly like a missing one. */
  method GetTask(db: Db, userId: Option<UserId>, id: TaskId) returns (r: Result<Task>)
    ensures userId.None? ==> r == Err(AuthRequired)
    ensures userId.Some? ==> r == if Owns(db.tasks, id, userId.value) then Ok(db.tasks[id]) else Err(TaskNotFound)
  {
    if userId.None? {
      return Err(AuthRequired);
    }
    var t := db.FindTask(id, userId.value);
    if t.None? {
      return Err(TaskNotFound);
    }
    r := Ok(t.value);
  }

  /** `(username || email.split('@')[0]).toLowerCase()`: the username sent, else the text
      before the first `@` of the e-mail, lower-cased. */
  function RegistrationUsername(email: string, username: Option<string>): (r: string)
    ensures IsLower(r)
    ensures username.Some? && username.value != "" ==> r == ToLower(username.value)
    ensures username.None? || username.value == "" ==>
      && |r| <= |email| && r == ToLower(email[..|r|])
      && (forall i | 0 <= i < |r| :: r[i] != '@')
      && (|r| < |email| ==> email[|r|] == '@')
  {
    if username.Some? && username.value != "" then ToLower(username.value) else ToLower(LocalPart(email))
  }

  /** `Mutation.registerUser`: refused when a user already has the lower-cased e-mail or the
      derived username; otherwise a user is saved with the password hashed and a random
      external id, and a session for it is returned. */
  method RegisterUser(db: Db, name: string, email: string, username: Option<string>, password: string, randomId: string)
    returns (r: Result<AuthPayload>)
    requires db.Valid()
    modifies db
    ensures db.Valid()
    ensures db.tasks == old(db.tasks)
    ensures var uname := RegistrationUsername(email, username);
            AnyMatch(old(db.users), [ByEmail(ToLower(email)), ByUsername(uname)]) ==>
              r == Err(UserExists) && db.users == old(db.users)
    ensures var uname := RegistrationUsername(email, username);
            var saved := SaveNewUser(User(old(db.nextUserId), name, ToLower(email), uname, Some(Plain(password)), Some(randomId)));
            !AnyMatch(old(db.users), [ByEmail(ToLower(email)), ByUsername(uname)]) ==>
              && r == (if saved.Some? then Ok(PayloadFor(saved.value)) else Err(ValidationFailed))
              && db.users == (if saved.Some? then old(db.users)[saved.value.id := saved.value] else old(db.users))
    ensures r.Ok? ==> r.value.user.id !in old(db.users) && r.value.user.id in db.users
    ensures r.Ok? ==> ComparePassword(db.users[r.value.user.id].password, password) == Some(true)
  {
    var uname := RegistrationUsername(email, username);
    var existing := db.FindUser([ByEmail(ToLower(email)), ByUsername(uname)]);
    if existing.Some? {
      return Err(UserExists);
    }
    ghost var s := SaveNewUser(User(db.nextUserId, name, ToLower(email), uname, Some(Plain(password)), Some(randomId)));
    if s.Some? {
      UnmatchedIsFree(db.users, [ByEmail(ToLower(email)), ByUsername(uname)], ToLower(email), uname, s.value);
    }
    var saved := db.InsertUser(name, ToLower(email), uname, Some(password), Some(randomId));
    if saved.None? {
      return Err(ValidationFailed);
    }
    r := Ok(PayloadFor(saved.value));
  }

  /** `Mutation.loginUser`: the first user whose e-mail or username is the lower-cased
      identifier, if the password verifies against its hash. A missing user and a wrong
      password give the same error. */
  method LoginUser(db: Db, emailOrUsername: string, password: string) returns (r: Result<AuthPayload>)
    requires db.Valid()
    ensures var q := ToLower(emailOrUsername);
            var found := db.FindUser([ByEmail(q), ByUsername(q)]);
            && (found.None? ==> r == Err(BadCredentials))
            && (found.Some? && found.value.password.None? ==> r == Err(PasswordCheckFailed))
            && (found.Some? && found.value.password.Some? ==>
                  r == if found.value.password == Some(Digest(Plain(password))) then Ok(PayloadFor(found.value)) else Err(BadCredentials))
    ensures r.Ok? ==> var u := db.users[r.value.user.id];
            && r.value.user.id in db.users && r == Ok(PayloadFor(u))
            && MatchesAny(u, [ByEmail(ToLower(emailOrUsername)), ByUsername(ToLower(emailOrUsername))])
            && u.password == Some(Digest(Plain(password)))
    ensures r.Err? ==> r.failure == BadCredentials || r.failure == PasswordCheckFailed
  {
    var q := ToLower(emailOrUsername);
    var found := db.FindUser([ByEmail(q), ByUsername(q)]);
    if found.None? {
      return Err(BadCredentials);
    }
    var verified := ComparePassword(found.value.password, password);
    if verified.None? {
      return Err(PasswordCheckFailed);
    }
    if !verified.value {
      return Err(BadCredentials);
    }
    r := Ok(PayloadFor(found.value));
  }

  /** `Mutation.createTask`: a blank title is refused; otherwise the trimmed title, the trimmed
      description (a blank one stays present), status PENDING and the caller as owner. */
  method CreateTask(db: Db, userId: Option<UserId>, title: string, description: Option<string>, now: Time)
    returns (r: Result<Task>)
    requires db.Valid()
    modifies db
    ensures db.Valid() && db.users == old(db.users)
    ensures userId.None? ==> r == Err(AuthRequired)
    ensures userId.Some? && IsBlank(title) ==> r == Err(TitleRequired)
    ensures userId.Some? && !IsBlank(title) ==>
      var v := Validate(Task(old(db.nextTaskId), Trim(title), CreatedDescription(description), Pending, userId.value, now, now));
      r == if v.Some? then Ok(v.value) else Err(ValidationFailed)
    ensures r.Ok? ==> r.value.id !in old(db.tasks) && db.tasks == old(db.tasks)[r.value.id := r.value]
    ensures r.Err? ==> db.tasks == old(db.tasks)
    ensures r.Ok? ==> && r.value.title == Trim(title) && r.value.description == CreatedDescription(description)
                      && r.value.status == Pending && r.value.userId == userId.value
                      && r.value.createdAt == now && r.value.updatedAt == now
  {
    if userId.None? {
      return Err(AuthRequired);
    }
    if Trim(title) == "" {
      return Err(TitleRequired);
    }
    TrimFixpoint(title);
    var t := Task(db.nextTaskId, Trim(title), CreatedDescription(description), Pending, userId.value, now, now);
    assert ApplySetters(t) == t;
    var saved := db.InsertTask(Trim(title), CreatedDescription(description), Pending, userId.value, now);
    if saved.None? {
      return Err(ValidationFailed);
    }
    assert saved.value == t;
    r := Ok(saved.value);
  }

  /** `Mutation.updateTask`, whose `title` and `description` are nullable: only the fields sent
      change. A `null` title reaches `title.trim()` and throws, a blank title is refused, and in
      both cases nothing is saved; a blank or `null` description removes the description. */
  method UpdateTask(db: Db, userId: Option<UserId>, id: TaskId, title: Arg<string>, description: Arg<string>, now: Time)
    returns (r: Result<Task>)
    requires db.Valid()
    modifies db
    ensures db.Valid() && db.users == old(db.users)
    ensures userId.None? ==> r == Err(AuthRequired)
    ensures userId.Some? && !Owns(old(db.tasks), id, userId.value) ==> r == Err(TaskNotFound)
    ensures userId.Some? && Owns(old(db.tasks), id, userId.value) && title.Null? ==> r == Err(NullTitle)
    ensures userId.Some? && Owns(old(db.tasks), id, userId.value) && title.Given? && IsBlank(title.value) ==>
      r == Err(TitleEmpty)
    ensures userId.Some? && Owns(old(db.tasks), id, userId.value) && !title.Null? && !(title.Given? && IsBlank(title.value)) ==>
      var saved := SaveOf(old(db.tasks)[id], EditTask(old(db.tasks)[id], Sent(title), description), now);
      r == if saved.Some? then Ok(saved.value) else Err(ValidationFailed)
    ensures db.tasks == if r.Ok? then old(db.tasks)[id := r.value] else old(db.tasks)
    ensures r.Ok? ==> (
      && id in old(db.tasks)
      && var t := old(db.tasks)[id];
      && r.value.id == id && r.value.userId == t.userId && r.value.status == t.status && r.value.createdAt == t.createdAt
      && r.value.title == (if title.Given? then Trim(title.value) else t.title)
      && r.value.description == AssignedDescription(t.description, description))
  {
    if userId.None? {
      return Err(AuthRequired);
    }
    var found := db.FindTask(id, userId.value);
    if found.None? {
      return Err(TaskNotFound);
    }
    if title.Null? {
      return Err(NullTitle);
    }
    if title.Given? && Trim(title.value) == "" {
      return Err(TitleEmpty);
    }
    var saved := db.SaveTask(EditTask(found.value, Sent(title), description), now);
    if saved.None? {
      return Err(ValidationFailed);
    }
    SavedEdit(found.value, Sent(title), description, now);
    r := Ok(saved.value);
  }

  /** `Mutation.deleteTask` */
  method DeleteTask(db: Db, userId: Option<UserId>, id: TaskId) returns (r: Result<bool>)
    requires db.Valid()
    modifies db
    ensures db.Valid() && db.users == old(db.users)
    ensures userId.None? ==> r == Err(AuthRequired)
    ensures userId.Some? ==> r == if Owns(old(db.tasks), id, userId.value) then Ok(true) else Err(TaskNotFound)
    ensures db.tasks == if r.Ok? then old(db.tasks) - {id} else old(db.tasks)
  {
    if userId.None? {
      return Err(AuthRequired);
    }
    var deleted := db.FindOneAndDeleteTask(id, userId.value);
    if deleted.None? {
      return Err(TaskNotFound);
    }
    r := Ok(true);
  }

  /** `Mutation.changeTaskStatus`: the status name is checked before the task is looked up;
      any status may follow any other, and only the status changes. The save cannot fail. */
  method ChangeTaskStatus(db: Db, userId: Option<UserId>, id: TaskId, status: string, now: Time)
    returns (r: Result<Task>)
    requires db.Valid()
    modifies db
    ensures db.Valid() && db.users == old(db.users)
    ensures userId.None? ==> r == Err(AuthRequired)
    ensures userId.Some? && status !in StatusNames ==> r == Err(InvalidStatus)
    ensures userId.Some? && status in StatusNames && !Owns(old(db.tasks), id, userId.value) ==> r == Err(TaskNotFound)
    ensures userId.Some? && status in StatusNames && Owns(old(db.tasks), id, userId.value) ==>
      var t := old(db.tasks)[id];
      var s := ParseStatus(status).value;
      r == Ok(t.(status := s, updatedAt := if s == t.status then t.updatedAt else now))
    ensures db.tasks == if r.Ok? then old(db.tasks)[id := r.value] else old(db.tasks)
  {
    if userId.None? {
      return Err(AuthRequired);
    }
    var s := ParseStatus(status);
    if s.None? {
      return Err(InvalidStatus);
    }
    var found := db.FindTask(id, userId.value);
    if found.None? {
      return Err(TaskNotFound);
    }
    StatusChangeSaves(found.value, s.value, now);
    var saved := db.SaveTask(found.value.(status := s.value), now);
    if saved.None? {
      assert false;
      return Err(ValidationFailed);
    }
    r := Ok(saved.value);
  }
}
