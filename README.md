# Task manager: a Dafny model

This project models the core of a full-stack task manager.

**Back end.** An Express/Apollo back end stores users and tasks in MongoDB through Mongoose.
- A task has a title, an optional description, and a status: `PENDING`, `IN_PROGRESS`, `DONE` or `ARCHIVED`. Each task belongs to one user.
- The schemas trim and lower-case fields on assignment (setters) and enforce lengths and formats on save (validators). They also keep `createdAt`/`updatedAt`.
- A pre-save hook hashes a password whenever the save modified it.
- GraphQL resolvers and REST controllers let a signed-in caller list, read, create, edit, delete and re-status only their own tasks. They also register and log in users.

**Front end.** A React front end has two parts:
- a purely local prototype: accounts and tasks kept in `localStorage`;
- pages that drive the API: a task form, a page whose button walks a task around the four statuses, and a list page whose button walks the three open ones.

The model follows the source's own shape. Pure computations are functions with lemmas: the schemas' setters and validators, the description rules, the local-storage list operations, the status cycles, and the login/registration form checks. Anything that changes state in place is a class with `modifies` clauses:
- the database (`Database.Db`, whose maps of tasks and users its methods update);
- a user document and its save hook;
- the authentication provider;
- the task form;
- the task-manager page;
- the login form.

Each request handler is a method over the database that returns the reply: status code plus JSON body or error message.

Modules, one per file:

| module | file | models |
|---|---|---|
| `Optional` | optional.dfy | `Option` |
| `Text` | text.dfy | `String.prototype.trim`, `toLowerCase`, `split('@')[0]`, the two e-mail patterns |
| `TaskSchema` | task_schema.dfy | `Back/src/models/Task.ts` |
| `UserSchema` | user_schema.dfy | `Back/src/models/User.ts` |
| `Database` | database.dfy | the Mongoose model operations the handlers call |
| `TaskEdits` | task_edits.dfy | the description rules and field edits shared by resolvers and controller |
| `Resolvers` | resolvers.dfy | `Back/src/graphql/resolvers.ts` |
| `Http` | http.dfy | status codes, replies and the verified token's claims |
| `TaskController` | task_controller.dfy | `Back/src/controllers/taskController.ts` |
| `AuthController` | auth_controller.dfy | `Back/src/controllers/authController.ts` |
| `TaskContext` | task_context.dfy | `Front/src/state/TaskContext.tsx` |
| `AuthContext` | auth_context.dfy | `Front/src/state/AuthContext.tsx` |
| `TaskForm` | task_form.dfy | `Front/src/components/tasks/TaskForm.tsx` |
| `TaskManagerPage` | task_manager_page.dfy | `Front/src/pages/TaskManagerPage.tsx` |
| `TasksPage` | tasks_page.dfy | `Front/src/pages/TasksPage.tsx` |
| `LoginPage` | login_page.dfy | `Front/src/pages/LoginPage.tsx` |

## Model

| member | source | states |
|---|---|---|
| TaskSchema.StatusName | Back/src/models/Task.ts:3 | each status has its own wire name, one of the four enum strings |
| TaskSchema.ParseStatus | Back/src/models/Task.ts:27-31 | a string is accepted exactly when it is one of the four enum names, and the result is the status of that name |
| TaskSchema.StatusNameRoundTrip | Back/src/models/Task.ts:27-31 | parsing a status's name gives the status back |
| TaskSchema.ApplySetters | Back/src/models/Task.ts:16-26 | the `trim` setters leave the title and any description trimmed; nothing else changes |
| TaskSchema.Validate | Back/src/models/Task.ts:14-42 | a task saves exactly when its trimmed title is non-empty and at most 200 UTF-16 code units and its trimmed description is at most 1000; the saved task is the trimmed one and is valid |
| TaskSchema.PassesValidators | Back/src/models/Task.ts:14-42 | a task that passes has a non-empty title of at most 200 characters and a description of at most 1000 |
| Database.SaveOf | Back/src/models/Task.ts:39-41 | a save keeps `createdAt`; `updatedAt` becomes the save time when the content changed, and stays put otherwise |
| Database.InsertByRecency | Back/src/graphql/resolvers.ts:42-44 | the result has the inserted task plus the tasks it was inserted into, as a multiset |
| Database.InsertKeepsSorted | Back/src/graphql/resolvers.ts:42-44 | inserting into a list sorted newest-updated-first keeps it sorted that way |
| Database.OwnedAmongStep | Back/src/graphql/resolvers.ts:42-44 | the owner's tasks among a map with one task added are the old ones plus that task, when the caller owns it |
| Database.AddKeepsUnique | Back/src/models/User.ts:21-36 | storing a user whose e-mail and username no stored user has keeps both unique indexes |
| Database.MatchesFilter | Back/src/graphql/resolvers.ts:100-105 | a stored user matches an e-mail or username filter only if that stored value is trimmed and lower-case, and an `auth0Id` filter only on that exact subject |
| Database.UnmatchedIsFree | Back/src/graphql/resolvers.ts:100-119 | a duplicate query that matches nobody leaves the e-mail and username free, so the unique indexes accept the new user |
| Database.LookupIsExact | Back/src/models/User.ts:21-36 | with the unique indexes, a lookup by one e-mail or username returns exactly the user stored under its cast value, padding and capitals included |
| Database.Db.constructor | Back/src/models/Task.ts:47 | the task and user collections start empty, and the store is valid |
| Database.Db.FindTask | Back/src/graphql/resolvers.ts:68-71 | `findOne({_id, userId})`: the task exactly when it exists and the caller owns it |
| Database.Db.FindTasksByOwner | Back/src/graphql/resolvers.ts:42-44 | `find({userId}).sort({updatedAt: -1})`: exactly the owner's tasks, each once, sorted newest-updated-first |
| Database.Db.FindUserById | Back/src/graphql/resolvers.ts:23 | `findById`: the stored user of that id, if any |
| Database.Db.ScanUsers | Back/src/graphql/resolvers.ts:100-105 | the users are searched in id order from a given id: the first one the match test accepts, or none exactly when it accepts nobody from there on |
| Database.Db.FindUser | Back/src/graphql/resolvers.ts:100-105 | `findOne({$or})`: the query's e-mail and username are trimmed and lower-cased as the schema's setters do; none exactly when no stored user matches any filter; otherwise a matching stored user with the least id |
| Database.Db.InsertTask | Back/src/graphql/resolvers.ts:195-202 | `Task.create`: a valid task is stored under a fresh id with both timestamps at the save time; an invalid one changes nothing |
| Database.Db.SaveTask | Back/src/graphql/resolvers.ts:249 | `task.save()`: the document is validated and stored in place with its timestamps updated; nothing else changes |
| Database.Db.FindOneAndDeleteTask | Back/src/graphql/resolvers.ts:273-276 | `findOneAndDelete({_id, userId})`: removes and returns the task exactly when the caller owns it |
| Database.Db.StoreUser | Back/src/graphql/resolvers.ts:111-119 | a validated user whose e-mail and username are free is stored under a fresh id, and the store, unique indexes included, stays valid |
| Database.Db.InsertUser | Back/src/graphql/resolvers.ts:111-119 | `new User(...).save()`: the user is cast, validated and hashed and stored under a fresh id; a validation failure or a duplicate e-mail or username changes nothing |
| UserSchema.CastEmail | Back/src/models/User.ts:21-28 | the e-mail setters leave a trimmed, lower-case value |
| UserSchema.CastUsername | Back/src/models/User.ts:29-36 | the username setters leave a trimmed, lower-case value |
| UserSchema.CastsAgree | Back/src/models/User.ts:21-36 | the e-mail and username paths cast every string alike, whichever of `trim` and `lowercase` runs first |
| UserSchema.PasswordRuleAsWritten | Back/src/models/User.ts:37-42 | the declared rule demands a password, and whatever it accepts the corrected rule accepts too |
| UserSchema.PasswordRule | Back/src/models/User.ts:37-42 | for a user without an external identity, the corrected rule is the declared one: a password of at least six UTF-16 units |
| UserSchema.PasswordRulesDiffer | Back/src/models/User.ts:37-42 | the two rules disagree exactly on a passwordless user from the external identity provider |
| UserSchema.CastUser | Back/src/models/User.ts:16-36 | the setters trim the name, trim and lower-case the e-mail and username, and leave the password and external id alone |
| UserSchema.TrimKeepsLower | Back/src/models/User.ts:21-28 | trimming a lower-cased string leaves it lower-cased |
| UserSchema.ValidateUserAsWritten | Back/src/models/User.ts:37-42 | as written: a user saves only if it has a password of at least 6 UTF-16 code units, so a user without a password never saves |
| UserSchema.ValidateUser | Back/src/models/User.ts:14-43 | a user saves exactly when its cast fields pass the required, pattern and length rules and its password rule holds; the saved user is the cast one and is valid |
| UserSchema.PasswordOnSave | Back/src/models/User.ts:50-58 | the hook hashes the password exactly when the save modified it |
| UserSchema.ComparePassword | Back/src/models/User.ts:68-73 | a candidate matches exactly when the stored digest is the hash of that candidate; a missing password is an error |
| UserSchema.HashKeepsValid | Back/src/models/User.ts:50-58 | hashing the password of a valid user keeps it valid (a digest has bcrypt's 60 characters) |
| UserSchema.SaveNewUser | Back/src/models/User.ts:50-58 | a new user's first save stores the digest of the password it was given |
| UserSchema.StoredIsHashOfLastAssigned | Back/src/models/User.ts:50-58 | after any sequence of assignments and saves, the stored password is the digest of the last plain password assigned |
| UserSchema.LastAssigned | Back/src/models/User.ts:50-58 | the last plain password assigned in a sequence of edits, present exactly when some edit assigned one |
| UserSchema.OnlyLastPasswordVerifies | Back/src/models/User.ts:68-73 | after those saves, exactly the last assigned password verifies |
| UserSchema.UserDocument.constructor | Back/src/models/User.ts:37-42 | a new document holds the password it was given, in clear, and marks it modified exactly when one was given |
| UserSchema.UserDocument.SetPassword | Back/src/models/User.ts:50-53 | assigning a password stores it in clear and marks it modified |
| UserSchema.UserDocument.PreSave | Back/src/models/User.ts:50-58 | the hook hashes a modified password and leaves an unmodified one as it is |
| UserSchema.UserDocument.MarkSaved | Back/src/models/User.ts:50-53 | after the save nothing is marked modified, and the password is unchanged |
| UserSchema.UserDocument.Compare | Back/src/models/User.ts:69-73 | `comparePassword` on the document agrees with ComparePassword on its stored password |
| UserSchema.HashForNewDocument | Back/src/models/User.ts:50-58 | a fresh document saved once stores the digest of its password |
| UserSchema.Public | Back/src/controllers/authController.ts:72-77 | the reply carries id, name, e-mail and username, and never the password |
| Text.LeadingSpace | Back/src/graphql/resolvers.ts:196 | the count of leading characters `trim` drops: all of them white space, and the next one, if any, not |
| Text.TrailingSpace | Back/src/graphql/resolvers.ts:196 | the count of trailing characters `trim` drops: all of them white space, and the one before them, if any, not |
| Text.Trim | Back/src/graphql/resolvers.ts:196 | the result is trimmed and is the input with its leading and trailing white space cut off |
| Text.IsSpace | Back/src/models/User.ts:26-27 | the white space `trim` strips and `\s` matches holds no letter, digit, `@` or `.`, and lies in the Basic Multilingual Plane |
| Text.BlankIffAllSpace | Back/src/graphql/resolvers.ts:190 | `!title.trim()` holds exactly when the title is all white space |
| Text.TrimFixpoint | Back/src/models/Task.ts:19 | trimming twice is trimming once |
| Text.TrimFixesTrimmed | Back/src/models/Task.ts:19 | trimming a trimmed string changes nothing |
| Text.ToLower | Back/src/graphql/resolvers.ts:102-103 | lower-casing keeps the length and leaves every character lower-case |
| Text.LowerKeepsLayout | Back/src/models/User.ts:21-36 | lower-casing keeps white space and `@` exactly where they were |
| Text.LetterIsNotSpace | Back/src/models/User.ts:21-36 | no letter is white space, an `@` or a `.` |
| Text.LowerKeepsTrimmed | Back/src/models/User.ts:21-36 | lower-casing a trimmed string keeps it trimmed |
| Text.LowerFixesLower | Back/src/models/User.ts:34 | lower-casing a lower-case string changes nothing |
| Text.TrimLowerCommute | Back/src/models/User.ts:25-26 | trimming and lower-casing commute |
| Text.LowerSlice | Back/src/models/User.ts:25 | lower-casing a slice is slicing the lower-cased string |
| Text.SchemaEmailShape | Back/src/models/User.ts:27 | an e-mail the schema's `match` accepts has at least five characters and no surrounding white space |
| Text.FormEmailShape | Front/src/pages/LoginPage.tsx:140-141 | an e-mail the form's regular expression accepts is also accepted by the schema's |
| Text.Utf16Length | Front/src/pages/LoginPage.tsx:65-66 | `length` counts UTF-16 code units: at least one and at most two per character, zero only for the empty string |
| Text.Utf16LengthOfBmp | Front/src/pages/LoginPage.tsx:65-66 | the code-unit count equals the character count exactly when no character lies above U+FFFF |
| Text.LocalPart | Back/src/graphql/resolvers.ts:102-103 | `split('@')[0]`: the longest prefix without `@` |
| TaskEdits.CreatedDescription | Back/src/graphql/resolvers.ts:197 | on create: the trimmed description when one was given, otherwise none |
| TaskEdits.UpdatedDescription | Back/src/graphql/resolvers.ts:246 | on update: none exactly when the trimmed description is empty, otherwise the trimmed text |
| TaskEdits.DescriptionRulesDifferOnBlank | Back/src/graphql/resolvers.ts:245-246 | the two rules differ exactly on a blank description: create keeps `""`, update drops it |
| TaskEdits.UpdatedDescriptionIdempotent | Back/src/graphql/resolvers.ts:246 | applying the update rule to its own result changes nothing |
| TaskEdits.Sent | Back/src/graphql/resolvers.ts:238 | a title counts as given exactly when the argument carries a string, and then it is that string |
| TaskEdits.AssignedDescription | Back/src/graphql/resolvers.ts:245-247 | an absent description keeps the current one; an explicit `null` removes it; a string sets its trimmed text, or removes the description when that is blank |
| TaskEdits.NullDescriptionIsBlank | Back/src/controllers/taskController.ts:120-122 | sending a string gives the same description as sending `null` exactly when the string is blank |
| TaskEdits.EditTask | Back/src/graphql/resolvers.ts:238-247 | an edit replaces exactly the fields given, telling a missing description from a `null` one, and keeps id, owner, status and timestamps |
| TaskEdits.EmptyEditIsNoChange | Back/src/graphql/resolvers.ts:238-249 | an edit with no fields leaves the task as it was |
| TaskEdits.EditKeepsValid | Back/src/graphql/resolvers.ts:238-249 | an edit that passes the handler's checks keeps a valid task valid |
| TaskEdits.SavedEdit | Back/src/graphql/resolvers.ts:238-259 | saving such an edit stores the edited fields, and `updatedAt` moves exactly when something changed |
| TaskEdits.StatusChangeSaves | Back/src/graphql/resolvers.ts:309-310 | a status change always saves, and the stored status is the one requested |
| Resolvers.PayloadFor | Back/src/graphql/resolvers.ts:121-135 | the auth payload carries the token and the public user, never the password |
| Resolvers.Message | Back/src/graphql/resolvers.ts:17-310 | every error the resolvers throw themselves has a non-empty message; only the password check, a `null` title and a failed validation come from a library |
| Resolvers.Me | Back/src/graphql/resolvers.ts:18-34 | `me`: "Authentication required" without a caller, "User not found" when the caller has no stored user, otherwise that user without password |
| Resolvers.ListTasks | Back/src/graphql/resolvers.ts:36-55 | `tasks`: unauthenticated without a caller; otherwise exactly the caller's tasks, newest-updated-first |
| Resolvers.GetTask | Back/src/graphql/resolvers.ts:57-85 | `task`: the task exactly when it exists and the caller owns it; otherwise not found |
| Resolvers.RegistrationUsername | Back/src/graphql/resolvers.ts:103 | the username is the lower-cased local part of the e-mail, without `@` |
| Resolvers.RegisterUser | Back/src/graphql/resolvers.ts:89-136 | `registerUser`: an e-mail or username taken once trimmed and lower-cased is refused and stores nothing; otherwise a validated user with a hashed password is stored and returned with a token |
| Resolvers.LoginUser | Back/src/graphql/resolvers.ts:138-179 | `loginUser`: succeeds exactly when a stored user has that e-mail or username and the password verifies; one message for both failures |
| Resolvers.CreateTask | Back/src/graphql/resolvers.ts:181-213 | `createTask`: a blank title is refused; otherwise the trimmed task is stored for the caller as PENDING |
| Resolvers.UpdateTask | Back/src/graphql/resolvers.ts:215-260 | `updateTask`: only the owner's task is changed, only in the fields given; an explicit `null` title throws and a blank title is refused, both saving nothing; a `null` or blank description removes the description |
| Resolvers.DeleteTask | Back/src/graphql/resolvers.ts:262-282 | `deleteTask`: true exactly when the caller owned the task, which is then gone; nothing else changes |
| Resolvers.ChangeTaskStatus | Back/src/graphql/resolvers.ts:284-321 | `changeTaskStatus`: the owner's task gets the requested status; others are untouched |
| Http.Subject | Back/src/controllers/authController.ts:29-34 | the caller is the token's non-empty subject, and there is none without one |
| TaskController.CallerOf | Back/src/controllers/taskController.ts:16-20 | the caller is the stored user whose external id is the token's subject |
| TaskController.CreateTask | Back/src/controllers/taskController.ts:7-51 | `POST /tasks`: 401 without a caller, 404 for an unknown user, 400 for a blank title, 201 with the stored task otherwise |
| TaskController.GetTasks | Back/src/controllers/taskController.ts:53-85 | `GET /tasks`: the caller's tasks newest-updated-first, and the same 401/404 guards |
| TaskController.UpdateTask | Back/src/controllers/taskController.ts:87-139 | `PUT /tasks/:id`: only the caller's task changes, only in the given fields; 404 otherwise; a JSON `null` title answers 500 and a blank one 400, both saving nothing; a `null` or blank description removes the description |
| TaskController.DeleteTask | Back/src/controllers/taskController.ts:141-170 | `DELETE /tasks/:id`: removes exactly the caller's task; 404 otherwise |
| TaskController.ChangeTaskStatus | Back/src/controllers/taskController.ts:172-218 | `PATCH /tasks/:id/status`: the caller's task gets the requested status; 404 otherwise |
| AuthController.RestUsername | Back/src/controllers/authController.ts:44-45 | the body's username, else the token's nickname, else the e-mail's local part |
| AuthController.RegistrationDocument | Back/src/controllers/authController.ts:63-68 | the document built has no password, the subject as external id, and lower-cased e-mail and username |
| AuthController.RegistrationRejectedAsWritten | Back/src/controllers/authController.ts:63-70 | under the schema as written that document never validates; under the corrected rule it does whenever its fields pass |
| AuthController.RegisterUser | Back/src/controllers/authController.ts:23-82 | `POST /auth/register`: 401, 400 for missing fields, 400 for an existing user, otherwise 201 with the stored user bound to the subject |
| AuthController.LoginUser | Back/src/controllers/authController.ts:84-117 | `POST /auth/login`: the subject's user without password, or 404 |
| AuthController.GetCurrentUser | Back/src/controllers/authController.ts:119-149 | `GET /auth/me`: the subject's user without password, or 404 |
| TaskContext.StorageKeyForUser | Front/src/state/TaskContext.tsx:32-34 | each user's tasks live under the prefix followed by the username |
| TaskContext.StorageKeysSeparateUsers | Front/src/state/TaskContext.tsx:32-34 | different users have different storage keys |
| TaskContext.ReadTasks | Front/src/state/TaskContext.tsx:36-48 | the stored array when the slot holds one, otherwise the empty list |
| TaskContext.WriteTasks | Front/src/state/TaskContext.tsx:50-54 | what is written reads back as the same list |
| TaskContext.WriteThenReadTasks | Front/src/state/TaskContext.tsx:36-54 | reading back what was written gives the same list |
| TaskContext.AddTask | Front/src/state/TaskContext.tsx:68-82 | a new PENDING task with the given id and timestamps is appended at the end; the rest keep their order |
| TaskContext.Merge | Front/src/state/TaskContext.tsx:89-93 | the patched fields are replaced, the id and creation time kept, and `updatedAt` set |
| TaskContext.UpdateTask | Front/src/state/TaskContext.tsx:84-99 | exactly the tasks with that id are patched; the length and order are kept |
| TaskContext.UpdateKeepsIds | Front/src/state/TaskContext.tsx:84-99 | an update never changes any task's id |
| TaskContext.DeleteTask | Front/src/state/TaskContext.tsx:101-103 | the result is the tasks with other ids, in order |
| TaskContext.DeleteKeepsOrder | Front/src/state/TaskContext.tsx:101-103 | deleting from a concatenation is deleting from each part |
| TaskContext.DeleteAbsentIsIdentity | Front/src/state/TaskContext.tsx:101-103 | deleting an id nobody has changes nothing |
| TaskContext.DeleteIdempotent | Front/src/state/TaskContext.tsx:101-103 | deleting twice is deleting once |
| TaskContext.DeleteUndoesAdd | Front/src/state/TaskContext.tsx:68-103 | adding a task under a fresh id and deleting it gives back the list |
| AuthContext.ReadUsers | Front/src/state/AuthContext.tsx:33-63 | a non-empty stored array is read as it is; every other slot reads as the seed account alone |
| AuthContext.WriteUsers | Front/src/state/AuthContext.tsx:65-68 | a non-empty list reads back as itself, and an empty one as the seed account |
| AuthContext.UsernameTaken | Front/src/state/AuthContext.tsx:117 | a username is taken exactly when `users.find` on it finds an account |
| AuthContext.ReadSession | Front/src/state/AuthContext.tsx:70-80 | a user exactly when the slot holds one |
| AuthContext.WriteSession | Front/src/state/AuthContext.tsx:82-89 | no user clears the slot; a user is stored |
| AuthContext.WriteThenRead | Front/src/state/AuthContext.tsx:65-89 | the session reads back as written; the user list too, unless it was empty |
| AuthContext.Find | Front/src/state/AuthContext.tsx:105 | `find`: none exactly when no element satisfies the predicate; otherwise the first element that does |
| AuthContext.LoginResult | Front/src/state/AuthContext.tsx:103-113 | `login` succeeds exactly when that username and password pair is stored |
| AuthContext.RegisterResult | Front/src/state/AuthContext.tsx:115-127 | `register` is refused exactly when the username is taken; otherwise the account is appended |
| AuthContext.RegisterThenLogin | Front/src/state/AuthContext.tsx:103-127 | registration keeps usernames unique and earlier logins working; the new account logs in with its own password and no other |
| AuthContext.AuthState.constructor | Front/src/state/AuthContext.tsx:92-93 | the state is read from the two storage slots and has at least one account |
| AuthContext.AuthState.IsAuthenticated | Front/src/state/AuthContext.tsx:136 | authenticated exactly when there is a session user |
| AuthContext.AuthState.Login | Front/src/state/AuthContext.tsx:103-113 | on success the session is that user; the accounts never change |
| AuthContext.AuthState.Register | Front/src/state/AuthContext.tsx:115-127 | succeeds exactly when the username is free, then appends the account and signs it in |
| AuthContext.AuthState.Logout | Front/src/state/AuthContext.tsx:129-131 | the session is cleared and the accounts kept |
| AuthContext.AuthState.Persisted | Front/src/state/AuthContext.tsx:92-101 | what the two effects store is read back by a rebuilt provider as the same session and the same accounts |
| TaskForm.InitialTitle | Front/src/components/tasks/TaskForm.tsx:12 | the edited task's title, or empty |
| TaskForm.InitialDescription | Front/src/components/tasks/TaskForm.tsx:13 | the edited task's description, or empty |
| TaskForm.Normalize | Front/src/components/tasks/TaskForm.tsx:17-21 | nothing is sent exactly when the title is blank; otherwise the trimmed title and the update rule's description |
| TaskForm.SubmissionIsStoredAsSent | Front/src/components/tasks/TaskForm.tsx:18-21 | what is sent is already in stored form: the server's trim and description rules leave it unchanged |
| TaskForm.UneditedSubmitResendsTask | Front/src/components/tasks/TaskForm.tsx:12-21 | opening a stored task and submitting it untouched sends its own title and description |
| TaskForm.FormState.constructor | Front/src/components/tasks/TaskForm.tsx:12-13 | the fields start from the edited task |
| TaskForm.FormState.HandleSubmit | Front/src/components/tasks/TaskForm.tsx:15-26 | sends the normalised fields, and clears them only after a create |
| TaskManagerPage.NextStatus | Front/src/pages/TaskManagerPage.tsx:47-55 | the toggle always changes the status; it goes to PENDING exactly from ARCHIVED and to ARCHIVED exactly from DONE |
| TaskManagerPage.FourPressesReturn | Front/src/pages/TaskManagerPage.tsx:47-55 | four presses bring every status back |
| TaskManagerPage.RoundsReturn | Front/src/pages/TaskManagerPage.tsx:47-55 | any whole number of rounds of four brings every status back |
| TaskManagerPage.TogglesCompose | Front/src/pages/TaskManagerPage.tsx:47-55 | m presses then n presses are m + n presses |
| TaskManagerPage.NoShorterCycle | Front/src/pages/TaskManagerPage.tsx:47-55 | one to three presses never bring a status back |
| TaskManagerPage.NextStatusInjective | Front/src/pages/TaskManagerPage.tsx:47-55 | different statuses request different next statuses |
| TaskManagerPage.ReadOnlyAfterToggle | Front/src/pages/TaskManagerPage.tsx:41-45 | the page's read-only flag is set exactly when the pressed task was IN_PROGRESS, that is, when the toggle asks for DONE |
| TaskManagerPage.PageState.constructor | Front/src/pages/TaskManagerPage.tsx:23-24 | nothing open, the read-only flag clear, nothing sent |
| TaskManagerPage.PageState.StartEditing | Front/src/pages/TaskManagerPage.tsx:113 | opens the task, and sends nothing |
| TaskManagerPage.PageState.CancelEditing | Front/src/pages/TaskManagerPage.tsx:93 | closes the task, and sends nothing |
| TaskManagerPage.PageState.HandleCreate | Front/src/pages/TaskManagerPage.tsx:26-28 | sends exactly one create with the submission |
| TaskManagerPage.PageState.HandleEdit | Front/src/pages/TaskManagerPage.tsx:30-38 | with a task open: one update for its id, then the task closes; otherwise nothing |
| TaskManagerPage.PageState.HandleToggleStatus | Front/src/pages/TaskManagerPage.tsx:40-56 | sends one status change to the next status of the cycle and sets the read-only flag by ReadOnlyAfterToggle |
| TasksPage.RequestedStatus | Front/src/pages/TasksPage.tsx:8-15 | DONE goes to PENDING, PENDING to IN_PROGRESS, IN_PROGRESS to DONE, each exactly; ARCHIVED is never requested |
| TasksPage.Pressed | Front/src/pages/TasksPage.tsx:8-15 | the button does nothing exactly for ARCHIVED |
| TasksPage.ThreeCycle | Front/src/pages/TasksPage.tsx:8-15 | three presses bring every open status back, and fewer do not |
| TasksPage.AgreesWithTaskManagerPage | Front/src/pages/TasksPage.tsx:8-15 | the two pages' buttons agree exactly on PENDING and IN_PROGRESS |
| LoginPage.ValidatePassword | Front/src/pages/LoginPage.tsx:64-67 | a message exactly when the password is non-empty and shorter than 6 UTF-16 code units |
| LoginPage.ValidateConfirmPassword | Front/src/pages/LoginPage.tsx:70-76 | a message exactly when the confirmation is non-empty and differs |
| LoginPage.CheckLogin | Front/src/pages/LoginPage.tsx:105-111 | the login call is made exactly when both fields are filled, with those fields |
| LoginPage.VerdictMessage | Front/src/pages/LoginPage.tsx:136-160 | each refusal has its own message, and a submission has none |
| LoginPage.MessageText | Front/src/pages/LoginPage.tsx:105-185 | every message the page shows has a non-empty text |
| LoginPage.CheckRegistration | Front/src/pages/LoginPage.tsx:130-173 | the checks apply in the page's order (missing field, e-mail, password, confirmation), each exactly when the earlier ones passed; a submission carries the form's fields |
| LoginPage.FieldMessagesFollowVerdict | Front/src/pages/LoginPage.tsx:147-165 | the field messages shown agree with the verdict that refused the form |
| LoginPage.FormEmailPassesSchema | Front/src/pages/LoginPage.tsx:141-142 | an e-mail the page accepts still matches the User schema's pattern after the schema's setters |
| LoginPage.SubmittedRegistrationPassesSchema | Front/src/pages/LoginPage.tsx:130-173 | a registration the page submits has a non-empty name, an e-mail the schema accepts and a password the schema accepts |
| LoginPage.AccountAsWritten | Front/src/pages/LoginPage.tsx:168-173 | the call as written stores the trimmed name as the username, and the typed password only when it equals the e-mail |
| LoginPage.IntendedAccount | Front/src/pages/LoginPage.tsx:111-173 | the intended account signs in with the e-mail field and the typed password |
| LoginPage.RegisterAsWrittenLocksOut | Front/src/pages/LoginPage.tsx:168-173 | with the call as written, the new account signs in with the typed password only if it equals the e-mail, and the login tab's same fields sign in only to an older account |
| LoginPage.RegisterAsWrittenExample | Front/src/pages/LoginPage.tsx:168-173 | name `Ada`, e-mail `ada@x.io`, password `secret1`: the stored account is (`Ada`, `ada@x.io`) and the login tab's sign-in is refused |
| LoginPage.RegisterThenSignIn | Front/src/pages/LoginPage.tsx:101-173 | with the intended account, an accepted registration is followed by a working sign-in from the login tab with the same fields |
| LoginPage.LoginForm.constructor | Front/src/pages/LoginPage.tsx:23-33 | login mode with every field empty and no messages |
| LoginPage.LoginForm.HandleTabChange | Front/src/pages/LoginPage.tsx:47-61 | switching tabs clears every field and message |
| LoginPage.LoginForm.SetText | Front/src/pages/LoginPage.tsx:287-305 | typing in the name, e-mail and username fields changes only those fields |
| LoginPage.LoginForm.HandlePasswordChange | Front/src/pages/LoginPage.tsx:79-89 | the password's messages are recomputed from the new password |
| LoginPage.LoginForm.HandleConfirmPasswordChange | Front/src/pages/LoginPage.tsx:92-99 | the confirmation's message is recomputed from the new confirmation |
| LoginPage.LoginForm.HandleLogin | Front/src/pages/LoginPage.tsx:101-111 | calls login exactly as CheckLogin says, or shows the missing-fields message |
| LoginPage.LoginForm.HandleRegister | Front/src/pages/LoginPage.tsx:125-173 | calls register exactly with a submitted verdict's request, or shows that verdict's message |
| LoginPage.LoginForm.ShowError | Front/src/pages/LoginPage.tsx:101-111 | `setError`: the message shown above the form becomes the one given, and nothing else changes |
| LoginPage.LoginForm.ShowVerdict | Front/src/pages/LoginPage.tsx:136-165 | a stopped registration shows its message, the password message on a short password and the confirmation message on a mismatch; success clears both field messages |
| LoginPage.LoginForm.HandleAnswer | Front/src/pages/LoginPage.tsx:110-116 | a refused call shows the login or the registration failure message, by mode |

## Left out

- The MongoDB connection and index builds are not modelled. The `unique` indexes on e-mail and username are modelled as a save that fails on a duplicate (`Db.InsertUser`), and `Db.Valid` keeps them.
- Ids are plain numbers here, so no malformed id exists. In the source an ill-formed id makes every id lookup throw: `new mongoose.Types.ObjectId` in the resolvers (Back/src/graphql/resolvers.ts:41, 66-67, 194, 228-229, 271-272, 299-300) and the CastError of `Task.findOne` / `findOneAndDelete` that the REST handlers' catch answers with 500 (Back/src/controllers/taskController.ts:105, 158, 195).
- Mongoose timestamps are modelled only as a clock value passed in: `updatedAt` moves on a save that changed content. Dates are numbers, not ISO strings.
- The User schema declares no `auth0Id` path, so in strict mode Mongoose drops it. The model stores it as the controllers intend. It therefore also sets aside what that does to the lookups `User.findOne({ auth0Id: sub })` (Back/src/controllers/taskController.ts:16, 62, 96, 150, 181; Back/src/controllers/authController.ts:48-54, 98, 132): with `strictQuery` off the filter matches no stored user and the REST handlers answer 404; with it on, the filter is stripped and the first user is returned.
- Database.Db.FindUser: `findOne` without a sort returns the first match in MongoDB's natural order, which is unspecified; the model takes it to be id (insertion) order.
- bcrypt is an ideal hash, `Digest(Plain(p))`, 60 characters long. Salts, cost and the asynchronous hook are not modelled.
- JWT signing and verification, random values and the clock are parameters. Back/src/middleware/auth.ts and `generateToken` are not part of this model.
- Thrown database or library errors are not modelled beyond validation failures. The 500 catch-all branches are modelled only where validation fails.
- The helpers file with the HTTP status constants is not part of this model. The codes are the standard values.
- `localStorage` and `JSON.parse` are modelled as the slot datatypes. The server-side branch `typeof window === 'undefined'` is left out.
- React rendering, navigation, Apollo caching, promises and the catch blocks' `err.message` are left out. The pages' state is modelled as state classes.
- LoginPage calls AuthContext's two-argument `register` with four arguments; the model records the request the page sends, and "## Findings" shows the account that call stores.
- TaskController.UpdateTask, TaskController.CreateTask, AuthController.RegisterUser: a JSON body field that is neither a string nor `null` (a number, say) is not modelled. In the source it passes the truthiness checks and then `trim`, `split` or `toLowerCase` throws, which the catch answers with 500 (Back/src/controllers/taskController.ts:24-31, 47-50, 112-122; Back/src/controllers/authController.ts:38-52, 78-81).
- The read-only flag of TaskManagerPage (Front/src/pages/TaskManagerPage.tsx:24, 94) never reaches the form: TaskForm's props declare no `isReadOnly` (Front/src/components/tasks/TaskForm.tsx:5-11), so the flag is kept as page state only and the form stays editable.
- TaskList, Header, AppLayout, LogoutPage, ProtectedRoute, the hooks and the api folder are left out: they only render or forward.
- LoginPage.LoginForm.HandleRegister: requires register mode, since the page renders the registration form only in that tab.
- Text.ToLower: lower-cases only A to Z. Unicode case mapping is not modelled.

## Findings

| source | as written | input that shows it | evidently intended | confidence | as-written member | corrected member |
|---|---|---|---|---|---|---|
| Back/src/controllers/authController.ts:63-70 with Back/src/models/User.ts:37-42 | REST registration builds a user without a password, but the schema marks the password required, so every registration that passes the duplicate check fails validation and answers 500 "Failed to register user" | a token with subject `s`, body name `Ada` and e-mail `ada@x.io`, and no existing user | a user authenticated by the external identity provider (one with `auth0Id`) needs no password | not executed | AuthController.RegistrationRejectedAsWritten, UserSchema.ValidateUserAsWritten | UserSchema.ValidateUser, AuthController.RegisterUser |
| Front/src/pages/LoginPage.tsx:168-173 with Front/src/state/AuthContext.tsx:19, 115-127 | `register(name.trim(), email.trim(), username.trim() \|\| undefined, password)` reaches a `register(username, password)`, which drops the last two arguments: the account stored is the trimmed name with the trimmed e-mail as its password, and the typed password is lost | name `Ada`, e-mail `ada@x.io`, password and confirmation `secret1`, no stored accounts; then the login tab with `ada@x.io` / `secret1` | the account signs in from the login tab with the same fields: username the trimmed e-mail, password the typed one | not executed | LoginPage.AccountAsWritten, LoginPage.RegisterAsWrittenLocksOut, LoginPage.RegisterAsWrittenExample | LoginPage.IntendedAccount, LoginPage.RegisterThenSignIn |
