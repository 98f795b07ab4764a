/** The browser-only sign-in of the front end's local prototype: a list of username/password
    pairs and the signed-in user, both kept in React state and mirrored in `localStorage`. */
module AuthContext {
  import opened Optional
  import opened TaskContext

  /** `{ username, password }` as kept in the stored list; passwords are kept in clear. */
  datatype StoredUser = StoredUser(username: string, password: string)

  /** The session: `{ username }`. */
  datatype SessionUser = SessionUser(username: string)

  /** The account every fresh browser starts with. */
  const SeedUser: StoredUser := StoredUser("admin", "123")

  /** `readUsersFromStorage`: the stored array when it is a non-empty array, and the single
      seed account in every other case (nothing stored, empty text, unparseable JSON, JSON that
      is not an array, an empty array). */
  function ReadUsers(slot: ListSlot<StoredUser>): (r: seq<StoredUser>)
    ensures r != []
    ensures slot.ArrayOf? && slot.items != [] ==> r == slot.items
    ensures !(slot.ArrayOf? && slot.items != []) ==> r == [SeedUser]
  {
    if slot.ArrayOf? && slot.items != [] then slot.items else [SeedUser]
  }

  /** `writeUsersToStorage`: `JSON.stringify` of the array. */
  function WriteUsers(users: seq<StoredUser>): (r: ListSlot<StoredUser>)
    ensures users != [] ==> ReadUsers(r) == users
    ensures users == [] ==> ReadUsers(r) == [SeedUser]
  {
    ArrayOf(users)
  }

  /** What a `localStorage` slot holding the session reads as: nothing, an empty string, text
      `JSON.parse` rejects, the JSON `null`, or a user. */
  datatype SessionSlot = NoSession | EmptySession | UnparseableSession | NullSession | StoredSession(user: SessionUser)

  /** `readSessionFromStorage`: the stored user, or no one. */
  function ReadSession(slot: SessionSlot): (r: Option<SessionUser>)
    ensures r.Some? <==> slot.StoredSession?
    ensures r.Some? ==> r.value == slot.user
  {
    if slot.StoredSession? then Some(slot.user) else None
  }

  /** `writeSessionToStorage`: no user removes the key; a user is stored as JSON. */
  function WriteSession(user: Option<SessionUser>): (r: SessionSlot)
    ensures user.None? <==> r.NoSession?
    ensures user.Some? ==> r == StoredSession(user.value)
  {
    if user.None? then NoSession else StoredSession(user.value)
  }

  /** A reload reads back the session that was written, and the user list as well whenever it is
      not empty; an emptied list comes back as the seed account alone. */
  lemma WriteThenRead(user: Option<SessionUser>, users: seq<StoredUser>)
    ensures ReadSession(WriteSession(user)) == user
    ensures ReadUsers(WriteUsers(users)) == if users == [] then [SeedUser] else users
  {
  }

  /** `users.find(pred)`: the first element that satisfies `pred`, or nothing. */
  function Find(users: seq<StoredUser>, pred: StoredUser -> bool): (r: Option<StoredUser>)
    ensures r.None? <==> forall i | 0 <= i < |users| :: !pred(users[i])
    ensures r.Some? ==> r.value in users && pred(r.value)
    ensures r.Some? ==> exists i | 0 <= i < |users| ::
      users[i] == r.value && pred(users[i]) && forall j | 0 <= j < i :: !pred(users[j])
  {
    if users == [] then None
    else if pred(users[0]) then Some(users[0])
    else Find(users[1..], pred)
  }

  /** `login`: signs in exactly when some stored account has both the username and the password,
      compared as they are (case-sensitive, untrimmed). */
  function LoginResult(users: seq<StoredUser>, username: string, password: string): (r: Option<SessionUser>)
    ensures r.Some? <==> StoredUser(username, password) in users
    ensures r.Some? ==> r.value == SessionUser(username)
  {
    var existing := Find(users, (u: StoredUser) => u.username == username && u.password == password);
    if existing.None? then None else Some(SessionUser(existing.value.username))
  }

  /** Some stored account has the username (compared case-sensitively). */
  function UsernameTaken(users: seq<StoredUser>, username: string): (r: bool)
    ensures r <==> Find(users, (u: StoredUser) => u.username == username).Some?
  {
    exists i | 0 <= i < |users| :: users[i].username == username
  }

  /** `register`: refused when the username is taken; otherwise the list with the new account
      appended. */
  function RegisterResult(users: seq<StoredUser>, username: string, password: string): (r: Option<seq<StoredUser>>)
    ensures r.None? <==> UsernameTaken(users, username)
    ensures r.Some? ==> r.value == users + [StoredUser(username, password)]
  {
    var existing := Find(users, (u: StoredUser) => u.username == username);
    if existing.Some? then None else Some(users + [StoredUser(username, password)])
  }

  /** No two stored accounts share a username. */
  predicate UniqueUsernames(users: seq<StoredUser>) {
    forall i, j | 0 <= i < j < |users| :: users[i].username != users[j].username
  }

  /** Registration keeps usernames unique, keeps every earlier sign-in working, and the new account
      signs in with its own password and with no other. */
  lemma RegisterThenLogin(users: seq<StoredUser>, username: string, password: string, other: StoredUser)
    requires RegisterResult(users, username, password).Some?
    ensures var next := RegisterResult(users, username, password).value;
      && (UniqueUsernames(users) ==> UniqueUsernames(next))
      && LoginResult(next, username, password) == Some(SessionUser(username))
      && (LoginResult(users, other.username, other.password).Some? ==> LoginResult(next, other.username, other.password).Some?)
      && (other.username == username ==> (LoginResult(next, username, other.password).Some? <==> other.password == password))
  {
    var next := users + [StoredUser(username, password)];
    assert next[|users|] == StoredUser(username, password);
  }

  /** The sign-in state of the provider: the session user and the account list. */
  class AuthState {
    var user: Option<SessionUser>
    var users: seq<StoredUser>

    /** The account list is never empty: it starts non-empty and only grows. */
    ghost predicate Valid()
      reads this
    {
      users != []
    }

    /** The initial state, read from the two storage slots. */
    constructor(sessionSlot: SessionSlot, usersSlot: ListSlot<StoredUser>)
      ensures Valid()
      ensures user == ReadSession(sessionSlot) && users == ReadUsers(usersSlot)
    {
      user := ReadSession(sessionSlot);
      users := ReadUsers(usersSlot);
    }

    /** `isAuthenticated`: `Boolean(user)`. */
    function IsAuthenticated(): (r: bool)
      reads this
      ensures r <==> user.Some?
    {
      user.Some?
    }

    /** `login`: on success the session becomes that user; the list never changes. */
    method Login(username: string, password: string) returns (ok: bool)
      requires Valid()
      modifies this
      ensures Valid()
      ensures ok <==> StoredUser(username, password) in old(users)
      ensures users == old(users)
      ensures user == if ok then Some(SessionUser(username)) else old(user)
    {
      var session := LoginResult(users, username, password);
      if session.None? {
        return false;
      }
      user := session;
      ok := true;
    }

    /** `register`: on success the account is appended and becomes the session; on a taken
        username nothing changes. */
    method Register(username: string, password: string) returns (ok: bool)
      requires Valid()
      modifies this
      ensures Valid()
      ensures ok <==> !UsernameTaken(old(users), username)
      ensures users == if ok then old(users) + [StoredUser(username, password)] else old(users)
      ensures user == if ok then Some(SessionUser(username)) else old(user)
    {
      var next := RegisterResult(users, username, password);
      if next.None? {
        return false;
      }
      users := next.value;
      user := Some(SessionUser(username));
      ok := true;
    }

    /** `logout`: clears the session and keeps the accounts. */
    method Logout()
      requires Valid()
      modifies this
      ensures Valid()
      ensures user.None? && users == old(users)
    {
      user := None;
    }

    /** What the two effects leave in storage after a state change: a provider rebuilt from
        those two slots reads back the same session and the same accounts. */
    function Persisted(): (r: (SessionSlot, ListSlot<StoredUser>))
      reads this
      ensures Valid() ==> ReadSession(r.0) == user && ReadUsers(r.1) == users
    {
      WriteThenRead(user, users);
      (WriteSession(user), WriteUsers(users))
    }
  }
}
