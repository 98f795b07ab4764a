/** The two Mongoose collections the back end uses (tasks and users) as maps keyed by
    document id, with the model operations the resolvers and controllers call on them:
    `findOne`, `find().sort()`, `findOneAndDelete` and `save()`. Every write goes through the
    schema's setters and validators, so every stored document is valid (`Db.Valid`). */
module Database {
  import opened Optional
  import opened TaskSchema
  import opened UserSchema
  import opened Text

  /** One branch of a `$or` user query. */
  datatype UserFilter = ByEmail(email: string) | ByUsername(username: string) | ByAuth0Id(sub: string)

  /** Mongoose casts a query value through its path's setters before comparing, so an e-mail or
      username is matched trimmed and lower-cased; `auth0Id` has no setter and is compared as given. */
  function MatchesFilter(u: User, f: UserFilter): (r: bool)
    ensures r && f.ByEmail? ==> IsTrimmed(u.email) && IsLower(u.email)
    ensures r && f.ByUsername? ==> IsTrimmed(u.username) && IsLower(u.username)
    ensures r && f.ByAuth0Id? ==> u.auth0Id == Some(f.sub)
  {
    match f
    case ByEmail(e) => u.email == CastEmail(e)
    case ByUsername(n) => u.username == CastUsername(n)
    case ByAuth0Id(s) => u.auth0Id == Some(s)
  }

  /** `{ $or: fs }` */
  predicate MatchesAny(u: User, fs: seq<UserFilter>) {
    exists i | 0 <= i < |fs| :: MatchesFilter(u, fs[i])
  }

  /** Some user matches the query. */
  predicate AnyMatch(users: map<UserId, User>, fs: seq<UserFilter>) {
    exists id | id in users :: MatchesAny(users[id], fs)
  }

  /** The `unique: true` indexes on e-mail and username: no two stored users share either. */
  predicate UniqueAccounts(users: map<UserId, User>) {
    forall i, j | i in users && j in users && i != j ::
      users[i].email != users[j].email && users[i].username != users[j].username
  }

  /** The unique indexes refuse to store `u`: a stored user already has its e-mail or username. */
  predicate Taken(users: map<UserId, User>, u: User) {
    exists id | id in users :: users[id].email == u.email || users[id].username == u.username
  }

  /** Adding a user whose e-mail and username are free keeps the unique indexes. */
  lemma AddKeepsUnique(users: map<UserId, User>, u: User)
    requires UniqueAccounts(users) && u.id !in users && !Taken(users, u)
    ensures UniqueAccounts(users[u.id := u])
  {
  }

  /** A query that lists an e-mail and a username and matches nobody leaves both free, so the
      unique indexes accept a user whose cast e-mail and username are those. */
  lemma UnmatchedIsFree(users: map<UserId, User>, fs: seq<UserFilter>, e: string, n: string, u: User)
    requires !AnyMatch(users, fs)
    requires ByEmail(e) in fs && ByUsername(n) in fs
    requires u.email == CastEmail(e) && u.username == CastUsername(n)
    ensures !Taken(users, u)
  {
    var i :| 0 <= i < |fs| && fs[i] == ByEmail(e);
    var j :| 0 <= j < |fs| && fs[j] == ByUsername(n);
    forall id | id in users
      ensures users[id].email != u.email && users[id].username != u.username
    {
      assert !MatchesFilter(users[id], fs[i]) && !MatchesFilter(users[id], fs[j]);
    }
  }

  /** The task `id` exists and belongs to `caller`: the filter `{ _id: id, userId: caller }`. */
  predicate Owns(tasks: map<TaskId, Task>, id: TaskId, caller: UserId) {
    id in tasks && tasks[id].userId == caller
  }

  /** The order of `sort({ updatedAt: -1 })`: most recently updated first (ties in any order). */
  predicate SortedByRecency(s: seq<Task>) {
    forall i, j | 0 <= i < j < |s| :: s[i].updatedAt >= s[j].updatedAt
  }

  /** Inserts `t` into a list sorted by recency, before the first task not more recent than it. */
  function InsertByRecency(t: Task, s: seq<Task>): (r: seq<Task>)
    ensures multiset(r) == multiset(s) + multiset{t}
    ensures forall k | 0 <= k < |r| :: r[k] in s || r[k] == t
  {
    if s == [] || t.updatedAt >= s[0].updatedAt then
      [t] + s
    else
      assert s == [s[0]] + s[1..];
      [s[0]] + InsertByRecency(t, s[1..])
  }

  /** Inserting keeps the list sorted. */
  lemma {:induction false} InsertKeepsSorted(t: Task, s: seq<Task>)
    requires SortedByRecency(s)
    ensures SortedByRecency(InsertByRecency(t, s))
  {
    if s != [] && t.updatedAt < s[0].updatedAt {
      InsertKeepsSorted(t, s[1..]);
      var rest := InsertByRecency(t, s[1..]);
      assert forall k | 0 <= k < |rest| :: s[0].updatedAt >= rest[k].updatedAt;
    }
  }

  /** Did a save change any field the callers assign (title, description, status)? This is
      Mongoose's `isModified()`, which decides whether `updatedAt` moves. */
  predicate ContentChanged(before: Task, after: Task) {
    before.title != after.title || before.description != after.description || before.status != after.status
  }

  /** What `save()` writes for the fetched document `stored` after the handler assigned
      fields to give `doc`: the setters and validators run (`None` is a ValidationError and
      nothing is written); `updatedAt` becomes `now` only when a field really changed. */
  function SaveOf(stored: Task, doc: Task, now: Time): (r: Option<Task>)
    ensures r.Some? <==> PassesValidators(ApplySetters(doc))
    ensures r.Some? ==> ValidTask(r.value)
    ensures r.Some? ==> r.value.(updatedAt := doc.updatedAt) == ApplySetters(doc)
    ensures r.Some? ==> r.value.updatedAt == if ContentChanged(stored, r.value) then now else stored.updatedAt
  {
    var v := Validate(doc);
    if v.None? then None
    else if ContentChanged(stored, v.value) then Some(v.value.(updatedAt := now))
    else Some(v.value.(updatedAt := stored.updatedAt))
  }

  /** Every document of `m` sits under its own id. */
  predicate KeyedById(m: map<TaskId, Task>) {
    forall id | id in m :: m[id].id == id
  }

  /** The tasks of `m` whose key is in `ids` and whose owner is `owner`. */
  ghost function OwnedAmong(m: map<TaskId, Task>, ids: set<TaskId>, owner: UserId): set<Task> {
    set id | id in ids && id in m && m[id].userId == owner :: m[id]
  }

  lemma OwnedAmongStep(m: map<TaskId, Task>, done: set<TaskId>, id: TaskId, owner: UserId)
    requires KeyedById(m) && id in m && id !in done
    ensures m[id].userId == owner ==>
      multiset(OwnedAmong(m, done + {id}, owner)) == multiset(OwnedAmong(m, done, owner)) + multiset{m[id]}
    ensures m[id].userId != owner ==> OwnedAmong(m, done + {id}, owner) == OwnedAmong(m, done, owner)
  {
    var a := OwnedAmong(m, done, owner);
    if m[id].userId == owner {
      assert m[id] !in a;
      assert OwnedAmong(m, done + {id}, owner) == a + {m[id]};
      assert forall y :: multiset(a + {m[id]})[y] == (multiset(a) + multiset{m[id]})[y];
    } else {
      assert OwnedAmong(m, done + {id}, owner) == a;
    }
  }

  class Db {
    var tasks: map<TaskId, Task>
    var users: map<UserId, User>
    var nextTaskId: nat
    var nextUserId: nat

    /** Each document sits under its own id, ids come from the counters, and every document
        passed the schema's validation when it was written; the unique indexes hold. */
    ghost predicate Valid()
      reads this
    {
      && KeyedById(tasks)
      && (forall id | id in tasks :: id < nextTaskId && ValidTask(tasks[id]))
      && (forall id | id in users :: users[id].id == id && id < nextUserId && ValidUser(users[id]))
      && UniqueAccounts(users)
    }

    constructor ()
      ensures Valid() && tasks == map[] && users == map[]
    {
      tasks, users := map[], map[];
      nextTaskId, nextUserId := 0, 0;
    }

    /** `Task.findOne({ _id: id, userId: owner })`: a task of another owner is not found. */
    function FindTask(id: TaskId, owner: UserId): (r: Option<Task>)
      reads this
      ensures r.Some? <==> Owns(tasks, id, owner)
      ensures r.Some? ==> r.value == tasks[id]
    {
      if id in tasks && tasks[id].userId == owner then Some(tasks[id]) else None
    }

    /** The tasks whose owner is `owner`. */
    ghost function OwnedTasks(owner: UserId): set<Task>
      reads this
    {
      set id | id in tasks && tasks[id].userId == owner :: tasks[id]
    }

    /** `Task.find({ userId: owner }).sort({ updatedAt: -1 })`: exactly the owner's tasks, each
        once, most recently updated first. */
    method FindTasksByOwner(owner: UserId) returns (r: seq<Task>)
      requires Valid()
      ensures SortedByRecency(r)
      ensures multiset(r) == multiset(OwnedTasks(owner))
    {
      r := [];
      var rest := tasks.Keys;
      assert KeyedById(tasks);
      while rest != {}
        invariant rest <= tasks.Keys
        invariant SortedByRecency(r)
        invariant multiset(r) == multiset(OwnedAmong(tasks, tasks.Keys - rest, owner))
        decreases rest
      {
        var id :| id in rest;
        ghost var done := tasks.Keys - rest;
        OwnedAmongStep(tasks, done, id, owner);
        if tasks[id].userId == owner {
          InsertKeepsSorted(tasks[id], r);
          r := InsertByRecency(tasks[id], r);
        }
        assert tasks.Keys - (rest - {id}) == done + {id};
        rest := rest - {id};
      }
      assert OwnedAmong(tasks, tasks.Keys, owner) == OwnedTasks(owner);
    }

    /** `User.findById(id)` */
    function FindUserById(id: UserId): (r: Option<User>)
      reads this
      ensures r.Some? <==> id in users
      ensures r.Some? ==> r.value == users[id]
    {
      if id in users then Some(users[id]) else None
    }

    /** The first user, in id order from `from`, that `matches` accepts. */
    function ScanUsers(matches: User -> bool, from: nat): (r: Option<User>)
      reads this
      requires Valid()
      decreases if from <= nextUserId then nextUserId - from else 0
      ensures r.Some? ==> from <= r.value.id && r.value.id in users && users[r.value.id] == r.value
      ensures r.Some? ==> matches(r.value)
      ensures r.Some? ==> forall id | id in users && from <= id < r.value.id :: !matches(users[id])
      ensures r.None? ==> forall id | id in users && from <= id :: !matches(users[id])
    {
      if from >= nextUserId then None
      else if from in users && matches(users[from]) then Some(users[from])
      else ScanUsers(matches, from + 1)
    }

    /** `User.findOne({ $or: fs })`: the first matching user in natural (insertion) order. */
    function FindUser(fs: seq<UserFilter>): (r: Option<User>)
      reads this
      requires Valid()
      ensures r.Some? ==> r.value.id in users && users[r.value.id] == r.value && MatchesAny(r.value, fs)
      ensures r.None? <==> !AnyMatch(users, fs)
      ensures r.Some? ==> forall id | id in users && id < r.value.id :: !MatchesAny(users[id], fs)
    {
      ScanUsers(u => MatchesAny(u, fs), 0)
    }

    /** `new Task({ title, description, status, userId }).save()`: setters and validators run;
        a valid document gets a fresh id and `createdAt == updatedAt == now`. */
    method InsertTask(title: string, description: Option<string>, status: Status, owner: UserId, now: Time)
      returns (r: Option<Task>)
      requires Valid()
      modifies this
      ensures Valid()
      ensures r == Validate(Task(old(nextTaskId), title, description, status, owner, now, now))
      ensures r.Some? ==> r.value.id !in old(tasks) && tasks == old(tasks)[r.value.id := r.value]
      ensures r.None? ==> tasks == old(tasks)
      ensures users == old(users) && nextUserId == old(nextUserId)
    {
      r := Validate(Task(nextTaskId, title, description, status, owner, now, now));
      if r.Some? {
        tasks := tasks[nextTaskId := r.value];
        nextTaskId := nextTaskId + 1;
      }
    }

    /** `doc.save()` for a task fetched from this store whose fields the handler assigned. */
    method SaveTask(doc: Task, now: Time) returns (r: Option<Task>)
      requires Valid()
      requires doc.id in tasks && doc.userId == tasks[doc.id].userId && doc.createdAt == tasks[doc.id].createdAt
      modifies this
      ensures Valid()
      ensures r == SaveOf(old(tasks[doc.id]), doc, now)
      ensures tasks == if r.Some? then old(tasks)[doc.id := r.value] else old(tasks)
      ensures users == old(users) && nextUserId == old(nextUserId)
    {
      r := SaveOf(tasks[doc.id], doc, now);
      if r.Some? {
        tasks := tasks[doc.id := r.value];
      }
    }

    /** `Task.findOneAndDelete({ _id: id, userId: owner })` */
    method FindOneAndDeleteTask(id: TaskId, owner: UserId) returns (r: Option<Task>)
      requires Valid()
      modifies this
      ensures Valid()
      ensures r == old(FindTask(id, owner))
      ensures tasks == if r.Some? then old(tasks) - {id} else old(tasks)
      ensures users == old(users) && nextUserId == old(nextUserId)
    {
      r := FindTask(id, owner);
      if r.Some? {
        tasks := tasks - {id};
      }
    }

    /** Writes a valid user the unique indexes accept under a fresh id. */
    method StoreUser(u: User)
      requires Valid() && ValidUser(u) && u.id == nextUserId && !Taken(users, u)
      modifies this
      ensures Valid()
      ensures users == old(users)[u.id := u] && nextUserId == old(nextUserId) + 1
      ensures tasks == old(tasks) && nextTaskId == old(nextTaskId)
    {
      AddKeepsUnique(users, u);
      users := users[nextUserId := u];
      nextUserId := nextUserId + 1;
    }

    /** `new User({ ... }).save()` under a fresh id: a validation error, or a duplicate key
        error from the unique indexes, stores nothing. */
    method InsertUser(name: string, email: string, username: string, password: Option<string>, auth0Id: Option<string>)
      returns (r: Option<User>)
      requires Valid()
      modifies this
      ensures Valid()
      ensures var s := SaveNewUser(User(old(nextUserId), name, email, username, if password.Some? then Some(Plain(password.value)) else None, auth0Id));
        r == if s.Some? && !Taken(old(users), s.value) then s else None
      ensures r.Some? ==> r.value.id !in old(users) && users == old(users)[r.value.id := r.value]
      ensures r.None? ==> users == old(users)
      ensures tasks == old(tasks) && nextTaskId == old(nextTaskId)
    {
      var credential := if password.Some? then Some(Plain(password.value)) else None;
      var u := User(nextUserId, name, email, username, credential, auth0Id);
      var v := ValidateUser(u);
      if v.None? {
        return None;
      }
      var hashed := HashForNewDocument(v.value.password);
      var saved := v.value.(password := hashed);
      assert Some(saved) == SaveNewUser(u);
      if Taken(users, saved) {
        return None;
      }
      StoreUser(saved);
      r := Some(saved);
    }
  }

  /** With the unique indexes, a lookup by one e-mail or one username finds exactly the user
      stored under that value once cast, however the query value is padded or capitalised. */
  lemma LookupIsExact(db: Db, f: UserFilter, id: UserId)
    requires db.Valid() && !f.ByAuth0Id?
    requires id in db.users && MatchesFilter(db.users[id], f)
    ensures db.FindUser([f]) == Some(db.users[id])
  {
    assert MatchesAny(db.users[id], [f]) by {
      assert [f][0] == f;
    }
    var r := db.FindUser([f]);
    var k :| 0 <= k < 1 && MatchesFilter(r.value, [f][k]);
    assert UniqueAccounts(db.users);
    assert db.users[r.value.id] == r.value;
  }
}
