/** The browser-only task list of the front end's local prototype: the list lives in React
    state, is replaced wholesale on every change, and is mirrored in `localStorage` under a
    per-user key. Every operation is a function of the previous list. */
module TaskContext {
  import opened Optional

  /** `'pending' | 'in-progress' | 'done'` */
  datatype LocalStatus = LocalPending | LocalInProgress | LocalDone

  /** Instants are the ISO strings `new Date().toISOString()` gives; ids are `crypto.randomUUID()`. */
  datatype LocalTask = LocalTask(
    id: string,
    title: string,
    description: Option<string>,
    status: LocalStatus,
    createdAt: string,
    updatedAt: string)

  /** `Partial<Omit<Task, 'id' | 'createdAt'>>`: each key may be absent; a present
      `description` may be `undefined`, which clears it. There is no way to name `id` or
      `createdAt`. */
  datatype TaskPatch = TaskPatch(
    title: Option<string>,
    description: Option<Option<string>>,
    status: Option<LocalStatus>,
    updatedAt: Option<string>)

  /** What a `localStorage` slot holding a JSON list reads as: nothing, an empty string, text
      `JSON.parse` rejects, JSON that is not an array, or an array. */
  datatype ListSlot<T> = Missing | EmptyText | Unparseable | NotAnArray | ArrayOf(items: seq<T>)

  const StorageKeyPrefix: string := "task-crud:tasks:"

  /** `storageKeyForUser(username)`: `username ?? 'anonymous'` after the prefix. */
  function StorageKeyForUser(username: Option<string>): (r: string)
    ensures |StorageKeyPrefix| <= |r| && r[..|StorageKeyPrefix|] == StorageKeyPrefix
    ensures r[|StorageKeyPrefix|..] == username.GetOr("anonymous")
  {
    StorageKeyPrefix + username.GetOr("anonymous")
  }

  /** Different users get different keys; a user named "anonymous" shares the key of the
      signed-out list. */
  lemma StorageKeysSeparateUsers(a: Option<string>, b: Option<string>)
    ensures StorageKeyForUser(a) == StorageKeyForUser(b) <==> a.GetOr("anonymous") == b.GetOr("anonymous")
  {
    if StorageKeyForUser(a) == StorageKeyForUser(b) {
      assert StorageKeyForUser(a)[|StorageKeyPrefix|..] == StorageKeyForUser(b)[|StorageKeyPrefix|..];
    }
  }

  /** `readTasks`: the stored array, or the empty list whenever there is none. */
  function ReadTasks(slot: ListSlot<LocalTask>): (r: seq<LocalTask>)
    ensures slot.ArrayOf? ==> r == slot.items
    ensures !slot.ArrayOf? ==> r == []
  {
    if slot.ArrayOf? then slot.items else []
  }

  /** `writeTasks`: `JSON.stringify` of an array, which reads back as that array. */
  function WriteTasks(tasks: seq<LocalTask>): (r: ListSlot<LocalTask>)
    ensures ReadTasks(r) == tasks
  {
    ArrayOf(tasks)
  }

  /** What is written is what is read back, the empty list included. */
  lemma WriteThenReadTasks(tasks: seq<LocalTask>)
    ensures ReadTasks(WriteTasks(tasks)) == tasks
  {
  }

  /** `addTask`: one new pending task at the end, created and updated at the same instant. */
  function AddTask(tasks: seq<LocalTask>, title: string, description: Option<string>, id: string, now: string)
    : (r: seq<LocalTask>)
    ensures |r| == |tasks| + 1 && r[..|tasks|] == tasks
    ensures r[|tasks|] == LocalTask(id, title, description, LocalPending, now, now)
  {
    tasks + [LocalTask(id, title, description, LocalPending, now, now)]
  }

  /** `{ ...task, ...updates, updatedAt: now }` */
  function Merge(t: LocalTask, patch: TaskPatch, now: string): (r: LocalTask)
    ensures r.id == t.id && r.createdAt == t.createdAt && r.updatedAt == now
    ensures r.title == patch.title.GetOr(t.title)
    ensures r.description == patch.description.GetOr(t.description)
    ensures r.status == patch.status.GetOr(t.status)
  {
    t.(title := patch.title.GetOr(t.title),
       description := patch.description.GetOr(t.description),
       status := patch.status.GetOr(t.status),
       updatedAt := now)
  }

  /** `updateTask`: every task with the id is merged with the patch and stamped `now`; every
      other task, and the order, stay as they were. */
  function UpdateTask(tasks: seq<LocalTask>, id: string, patch: TaskPatch, now: string): (r: seq<LocalTask>)
    ensures |r| == |tasks|
    ensures forall i | 0 <= i < |tasks| :: r[i] == if tasks[i].id == id then Merge(tasks[i], patch, now) else tasks[i]
  {
    if tasks == [] then []
    else [if tasks[0].id == id then Merge(tasks[0], patch, now) else tasks[0]] + UpdateTask(tasks[1..], id, patch, now)
  }

  /** `deleteTask`: `filter(task => task.id !== id)`. */
  function DeleteTask(tasks: seq<LocalTask>, id: string): (r: seq<LocalTask>)
    ensures |r| <= |tasks|
    ensures forall t | t in r :: t in tasks && t.id != id
    ensures forall t | t in tasks && t.id != id :: t in r
  {
    if tasks == [] then []
    else if tasks[0].id == id then DeleteTask(tasks[1..], id)
    else [tasks[0]] + DeleteTask(tasks[1..], id)
  }

  /** Deleting works piece by piece, so the tasks kept stay in their order. */
  lemma {:induction false} DeleteKeepsOrder(a: seq<LocalTask>, b: seq<LocalTask>, id: string)
    ensures DeleteTask(a + b, id) == DeleteTask(a, id) + DeleteTask(b, id)
  {
    if a != [] {
      var ab := a + b;
      assert ab != [] && ab[0] == a[0] && ab[1..] == a[1..] + b;
      DeleteKeepsOrder(a[1..], b, id);
      if a[0].id == id {
        assert DeleteTask(ab, id) == DeleteTask(a[1..] + b, id);
      } else {
        assert DeleteTask(ab, id) == [a[0]] + DeleteTask(a[1..] + b, id);
        assert DeleteTask(a, id) == [a[0]] + DeleteTask(a[1..], id);
      }
    } else {
      assert a + b == b;
    }
  }

  /** A list with no task of the id is left exactly as it is. */
  lemma {:induction false} DeleteAbsentIsIdentity(tasks: seq<LocalTask>, id: string)
    requires forall i | 0 <= i < |tasks| :: tasks[i].id != id
    ensures DeleteTask(tasks, id) == tasks
  {
    if tasks != [] {
      DeleteAbsentIsIdentity(tasks[1..], id);
    }
  }

  /** Deleting twice removes nothing more than deleting once. */
  lemma DeleteIdempotent(tasks: seq<LocalTask>, id: string)
    ensures DeleteTask(DeleteTask(tasks, id), id) == DeleteTask(tasks, id)
  {
    var r := DeleteTask(tasks, id);
    assert forall i | 0 <= i < |r| :: r[i] in r;
    DeleteAbsentIsIdentity(r, id);
  }

  /** Deleting a task just added, under a fresh id, gives back the list as it was. */
  lemma DeleteUndoesAdd(tasks: seq<LocalTask>, title: string, description: Option<string>, id: string, now: string)
    requires forall i | 0 <= i < |tasks| :: tasks[i].id != id
    ensures DeleteTask(AddTask(tasks, title, description, id, now), id) == tasks
  {
    var added := LocalTask(id, title, description, LocalPending, now, now);
    DeleteKeepsOrder(tasks, [added], id);
    DeleteAbsentIsIdentity(tasks, id);
    assert DeleteTask([added], id) == DeleteTask([], id);
  }

  /** Updating never changes which ids the list holds, or in what order. */
  lemma UpdateKeepsIds(tasks: seq<LocalTask>, id: string, patch: TaskPatch, now: string)
    ensures var r := UpdateTask(tasks, id, patch, now);
      forall i | 0 <= i < |tasks| :: r[i].id == tasks[i].id && r[i].createdAt == tasks[i].createdAt
  {
  }
}
