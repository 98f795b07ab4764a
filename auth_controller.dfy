/** The REST façade over users: registration of the identity a verified external token names,
    and the two lookups of that identity's user record. */
module AuthController {
  import opened Optional
  import opened Text
  import opened TaskSchema
  import opened UserSchema
  import opened Database
  import opened Http

  /** `req.body.username || auth0Payload.nickname || email.split('@')[0]`: the first of the three
      that is present and non-empty. */
  function RestUsername(bodyUsername: Option<string>, nickname: Option<string>, email: string): (r: string)
    ensures Truthy(bodyUsername) ==> r == bodyUsername.value
    ensures !Truthy(bodyUsername) && Truthy(nickname) ==> r == nickname.value
    ensures !Truthy(bodyUsername) && !Truthy(nickname) ==>
      |r| <= |email| && r == email[..|r|] && (forall i | 0 <= i < |r| :: r[i] != '@') && (|r| < |email| ==> email[|r|] == '@')
  {
    if Truthy(bodyUsername) then bodyUsername.value
    else if Truthy(nickname) then nickname.value
    else LocalPart(email)
  }

  /** The user document the handler builds: no password, the subject as external id. */
  function RegistrationDocument(id: UserId, name: string, email: string, username: string, sub: string): (r: User)
    ensures r.password.None? && r.auth0Id == Some(sub)
    ensures r.id == id && r.name == name && r.email == ToLower(email) && r.username == ToLower(username)
  {
    User(id, name, ToLower(email), ToLower(username), None, Some(sub))
  }

  /** Under the User schema as written, which requires a password, that document never passes
      validation, so every registration that gets this far ends in the 500 "Failed to register
      user"; under the corrected rule it is saved whenever its other fields are valid. */
  lemma RegistrationRejectedAsWritten(id: UserId, name: string, email: string, username: string, sub: string)
    ensures ValidateUserAsWritten(RegistrationDocument(id, name, email, username, sub)).None?
    ensures PassesFieldValidators(CastUser(RegistrationDocument(id, name, email, username, sub))) ==>
      ValidateUser(RegistrationDocument(id, name, email, username, sub)).Some?
  {
  }

  /** `POST /auth/register` */
  method RegisterUser(db: Db, auth: Option<Claims>, name: Option<string>, email: Option<string>, bodyUsername: Option<string>)
    returns (r: Reply<PublicUser>)
    requires db.Valid()
    modifies db
    ensures db.Valid() && db.tasks == old(db.tasks)
    ensures Subject(auth).None? ==> r == Reply(UNAUTHORIZED, Error("Authentication required"))
    ensures Subject(auth).Some? && (!Truthy(name) || !Truthy(email)) ==>
      r == Reply(BAD_REQUEST, Error("Name and email are required"))
    ensures Subject(auth).Some? && Truthy(name) && Truthy(email) ==>
      var sub := Subject(auth).value;
      var username := RestUsername(bodyUsername, auth.value.nickname, email.value);
      var query := [ByAuth0Id(sub), ByEmail(ToLower(email.value)), ByUsername(ToLower(username))];
      var saved := ValidateUser(RegistrationDocument(old(db.nextUserId), name.value, email.value, username, sub));
      && (AnyMatch(old(db.users), query) ==>
            r == Reply(BAD_REQUEST, Error("User already exists with this email, username, or Auth0 ID")))
      && (!AnyMatch(old(db.users), query) ==>
            r == if saved.Some? then Reply(CREATED, Json(Public(saved.value)))
                 else Reply(INTERNAL_SERVER_ERROR, Error("Failed to register user")))
      && (!AnyMatch(old(db.users), query) && PassesFieldValidators(CastUser(RegistrationDocument(old(db.nextUserId), name.value, email.value, username, sub))) ==>
            r.code == CREATED)
    ensures r.code == CREATED ==> (
      && r.body.Json? && r.body.value.id !in old(db.users)
      && r.body.value.id in db.users && db.users == old(db.users)[r.body.value.id := db.users[r.body.value.id]]
      && Public(db.users[r.body.value.id]) == r.body.value
      && db.users[r.body.value.id].auth0Id == Subject(auth)
      && db.users[r.body.value.id].password.None?)
    ensures r.code != CREATED ==> db.users == old(db.users)
  {
    var sub := Subject(auth);
    if sub.None? {
      return Reply(UNAUTHORIZED, Error("Authentication required"));
    }
    if !Truthy(name) || !Truthy(email) {
      return Reply(BAD_REQUEST, Error("Name and email are required"));
    }
    var username := RestUsername(bodyUsername, auth.value.nickname, email.value);
    var existing := db.FindUser([ByAuth0Id(sub.value), ByEmail(ToLower(email.value)), ByUsername(ToLower(username))]);
    if existing.Some? {
      return Reply(BAD_REQUEST, Error("User already exists with this email, username, or Auth0 ID"));
    }
    ghost var s := SaveNewUser(User(db.nextUserId, name.value, ToLower(email.value), ToLower(username), None, sub));
    if s.Some? {
      UnmatchedIsFree(db.users, [ByAuth0Id(sub.value), ByEmail(ToLower(email.value)), ByUsername(ToLower(username))],
                      ToLower(email.value), ToLower(username), s.value);
    }
    var saved := db.InsertUser(name.value, ToLower(email.value), ToLower(username), None, sub);
    if saved.None? {
      return Reply(INTERNAL_SERVER_ERROR, Error("Failed to register user"));
    }
    LowerKeepsTrimmed(email.value);
    LowerKeepsTrimmed(username);
    r := Reply(CREATED, Json(Public(saved.value)));
  }

  /** `POST /auth/login`: the user record of the token's subject, without its password. */
  method LoginUser(db: Db, auth: Option<Claims>) returns (r: Reply<PublicUser>)
    requires db.Valid()
    ensures Subject(auth).None? ==> r == Reply(UNAUTHORIZED, Error("Authentication required"))
    ensures Subject(auth).Some? ==>
      var found := db.FindUser([ByAuth0Id(Subject(auth).value)]);
      r == if found.Some? then Reply(OK, Json(Public(found.value)))
           else Reply(NOT_FOUND, Error("User not found. Please register first."))
    ensures r.code == OK ==> r.body.Json? && exists id | id in db.users ::
      db.users[id].auth0Id == Subject(auth) && Public(db.users[id]) == r.body.value
  {
    var sub := Subject(auth);
    if sub.None? {
      return Reply(UNAUTHORIZED, Error("Authentication required"));
    }
    var found := db.FindUser([ByAuth0Id(sub.value)]);
    if found.None? {
      return Reply(NOT_FOUND, Error("User not found. Please register first."));
    }
    assert MatchesFilter(found.value, ByAuth0Id(sub.value));
    r := Reply(OK, Json(Public(found.value)));
  }

  /** `GET /auth/me`: as the login lookup, with the plain "User not found" message. */
  method GetCurrentUser(db: Db, auth: Option<Claims>) returns (r: Reply<PublicUser>)
    requires db.Valid()
    ensures Subject(auth).None? ==> r == Reply(UNAUTHORIZED, Error("Authentication required"))
    ensures Subject(auth).Some? ==>
      var found := db.FindUser([ByAuth0Id(Subject(auth).value)]);
      r == if found.Some? then Reply(OK, Json(Public(found.value))) else Reply(NOT_FOUND, Error("User not found"))
    ensures r.code == OK ==> r.body.Json? && exists id | id in db.users ::
      db.users[id].auth0Id == Subject(auth) && Public(db.users[id]) == r.body.value
  {
    var sub := Subject(auth);
    if sub.None? {
      return Reply(UNAUTHORIZED, Error("Authentication required"));
    }
    var found := db.FindUser([ByAuth0Id(sub.value)]);
    if found.None? {
      return Reply(NOT_FOUND, Error("User not found"));
    }
    assert MatchesFilter(found.value, ByAuth0Id(sub.value));
    r := Reply(OK, Json(Public(found.value)));
  }
}
