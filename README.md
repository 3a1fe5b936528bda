# Task manager core, modelled in Dafny

This project models the logic of a small task-manager web application. It has two halves.

The client half:
- A per-user task store (`TasksProvider`) keeps the signed-in user's task list and a dictionary from user id to task list. The list supports add with a duplicate-id check, edit, delete, status and priority updates, and a stable sort by priority rank.
- A task-manager view (`ManageTasks`) filters the list by priority, sorts a copy of it and splits it into Pending and Completed columns. It also holds the status toggle and the edit form with its "only edit when something changed" rule.
- An auth store (`AuthProvider`) keeps registered users and the signed-in user. Signup runs three guards; login finds the first matching user.
- The signup form (`SignupForm`) holds a schema of length rules and a password-match check.

The server half:
- The task collection route lists the caller's tasks newest first and creates tasks.
- The signup and login routes are guard chains over a user collection.
- Two storage schemas (`Task`, `User`) hold field validators, defaults and normalising setters.

Each core source file becomes one Dafny module. `TaskList` holds the list updaters that several files share, and `Text`, `Seqs`, `Wrappers` and `Http` are shared helpers:

| module | file | form |
|---|---|---|
| `TaskTypes`, `AuthTypes` | `task_types.dfy`, `auth_types.dfy` | datatypes for `ITask` and `IUser` |
| `TaskList` | `task_list.dfy` | pure list updaters (the `setTasks` callbacks) |
| `TasksProvider` | `tasks_provider.dfy` | class with a task-list field and a dictionary field |
| `ManageTasks` | `manage_tasks.dfy` | pure view functions |
| `AuthProvider` | `auth_provider.dfy` | class with a user list and the current user |
| `SignupForm` | `signup_form.dfy` | schema and submit handler |
| `TaskModel`, `UserModel`, `Schema` | `task_model.dfy`, `user_model.dfy`, `schema.dfy` | schema validators as functions |
| `TasksRoute` | `tasks_route.dfy` | guard chain, and a class over the stored task documents |
| `SignupRoute` | `signup_route.dfy` | guard chain, and a class over the stored user documents |
| `LoginRoute` | `login_route.dfy` | read-only guard chain |
| `Text`, `Seqs`, `Wrappers`, `Http` | `text.dfy`, `seqs.dfy`, `wrappers.dfy`, `http.dfy` | string trimming and lowercasing, filter and stable sort, `Option`, responses |

Modelling choices:
- A task id is `Option<string>`, because the add form builds tasks without an id. Strict equality on ids is equality of options, so two absent ids are equal.
- `String.prototype.trim` removes the ECMAScript WhiteSpace and LineTerminator code points.
- `toLowerCase` maps ASCII letters only.
- JavaScript's `Array.prototype.sort` is stable, and the comparators are rank differences. Both are modelled as one stable insertion sort by an integer key. The key is the rank for ascending order and its negation for descending order.
- `ObjectId.isValid` and the e-mail pattern are function-valued parameters.
- The signup form's resolver keeps, for each field, the first issue the schema reports (react-hook-form's default `criteriaMode` of "firstError"), and each field renders one message. `SignupForm.ShownIssue` is that first issue.
- Identifiers, clocks and random numbers are method parameters.

## Model

| member | source | states |
|---|---|---|
| Text.Trim | src/app/api/tasks/route.ts:74-79 | the result is one contiguous slice of the input; everything removed is whitespace; neither end of the result is whitespace |
| Text.TrimEmptyIff | src/app/api/tasks/route.ts:74 | a title trims to the empty string exactly when it is all whitespace |
| Text.TrimIdempotent | src/models/Task.ts:20-26 | trimming twice (route, then schema setter) equals trimming once |
| Text.Lower | src/app/api/auth/signup/route.ts:47 | same length; every character is lowercased on its own |
| Text.LowerIdempotent | src/models/User.ts:21-31 | lowercasing an email the route has already lowercased changes nothing |
| Seqs.FirstWhere | src/providers/AuthProvider.tsx:128-133 | the first index that satisfies the predicate; none exactly when no element does |
| Seqs.Filter | src/providers/TasksProvider.tsx:105 | never longer than the input; keeps exactly the selected elements |
| Seqs.FilterConcat | src/components/modules/tasks/ManageTasks.tsx:199-204 | filtering distributes over concatenation, so it keeps the input order |
| Seqs.FilterCount | src/components/modules/tasks/ManageTasks.tsx:183-186 | each selected element keeps its multiplicity; a rejected element does not occur |
| Seqs.FilterSorted | src/components/modules/tasks/ManageTasks.tsx:199-204 | a sorted list stays sorted under any filter |
| Seqs.SortBy | src/providers/TasksProvider.tsx:141-147 | the result has the input's length and is ordered by non-decreasing key |
| Seqs.SortByPermutes | src/providers/TasksProvider.tsx:141-147 | the sort is a permutation of its input |
| Seqs.SortByStable | src/providers/TasksProvider.tsx:141-147 | elements that share a key keep their input order |
| TaskTypes.ParseStatus | src/app/api/tasks/route.ts:88-93 | an accepted string is the name of the returned status |
| TaskTypes.ParsePriority | src/app/api/tasks/route.ts:81-86 | an accepted string is the name of the returned priority |
| TaskTypes.StatusNamesRoundTrip | src/models/Task.ts:27-31 | a string is accepted exactly when it names a status; parsing a status's name gives back that status |
| TaskTypes.PriorityNamesRoundTrip | src/models/Task.ts:32-36 | a string is accepted exactly when it names a priority; parsing a priority's name gives back that priority |
| TaskTypes.Rank | src/providers/TasksProvider.tsx:139 | the weights range from 1 (High) to 3 (Low) |
| TaskTypes.RankInjective | src/providers/TasksProvider.tsx:139 | two priorities have the same weight exactly when they are equal |
| TaskList.Merge | src/providers/TasksProvider.tsx:94 | each field of the patch that is present replaces the task's field; every absent one keeps the task's value |
| TaskList.MergeIdempotent | src/providers/TasksProvider.tsx:94 | spreading a patch twice over a task equals spreading it once |
| TaskList.AddTask | src/providers/TasksProvider.tsx:76-83 | the payload is appended exactly when no task has an equal id; otherwise the list is unchanged |
| TaskList.AddTaskKeepsIdsDistinct | src/providers/TasksProvider.tsx:76-83 | distinct ids stay distinct; the payload ends up in the list exactly when it was already there or its id was new |
| TaskList.AddTaskDropsIdless | src/providers/TasksProvider.tsx:78-80 | any list that already holds a task without an id leaves every further task without an id out, so the list is unchanged and a new payload does not appear in it |
| TaskList.AddTaskFixed | src/providers/TasksProvider.tsx:76-83 | the corrected add: only a present id is checked for duplicates |
| TaskList.AddTaskFixedCorrect | src/components/modules/tasks/index.tsx:55-62 | a task without an id is always appended; a task with an id is handled as `TaskList.AddTask` handles it; present ids stay distinct |
| TaskList.EditTask | src/providers/TasksProvider.tsx:92-96 | same length and order; each task with the id becomes the task with the patch spread over it; every other task is unchanged |
| TaskList.EditTaskIdempotent | src/providers/TasksProvider.tsx:92-96 | repeating an edit whose patch keeps the id changes nothing more |
| TaskList.DeleteTask | src/providers/TasksProvider.tsx:105 | afterwards no task has the id; every task with another id is still there |
| TaskList.DeleteTaskKeepsOthers | src/providers/TasksProvider.tsx:105 | every other task keeps its multiplicity, and deleting distributes over concatenation, so the order is kept |
| TaskList.DeleteUndoesAdd | src/providers/TasksProvider.tsx:76-105 | deleting the id of a task just added leaves what deleting alone leaves |
| TaskList.DeleteAfterEdit | src/providers/TasksProvider.tsx:92-105 | an edit that keeps ids makes no difference to the deletion of that id |
| TaskList.SetStatus | src/providers/TasksProvider.tsx:114-116 | same length; only the status of matching tasks changes |
| TaskList.SetPriority | src/providers/TasksProvider.tsx:128-130 | same length; only the priority of matching tasks changes |
| TaskList.SetFieldIsEdit | src/providers/TasksProvider.tsx:114-130 | setting one field equals an edit with a one-field patch |
| TaskList.SetStatusRestores | src/providers/TasksProvider.tsx:114-116 | setting the status back to the one every matching task had restores the list |
| TaskList.OfPriority | src/components/modules/tasks/ManageTasks.tsx:185 | every task selected has the given priority |
| TaskList.SortByPriority | src/providers/TasksProvider.tsx:139-147 | the sorted list has the input's length and is ordered by rank, ascending or descending as asked |
| TaskList.SortByPriorityCorrect | src/providers/TasksProvider.tsx:133-147 | a permutation; ascending gives non-decreasing rank (High first), descending gives non-increasing rank; the tasks of each priority keep their order |
| TaskList.SortIsGrouped | src/providers/TasksProvider.tsx:139-147 | the sorted list is the priority groups one after another, each group in list order |
| TaskList.SortExample | src/providers/TasksProvider.tsx:139-147 | Low, High, Medium sorts ascending to High, Medium, Low and descending to Low, Medium, High |
| TasksProvider.UserTasks | src/providers/TasksProvider.tsx:38-41 | the stored list of the user, or the empty list when there is none |
| TasksProvider.SaveUserTasks | src/providers/TasksProvider.tsx:43-47 | the dictionary gains the user's key; that entry becomes the list; every other entry is unchanged |
| TasksProvider.GetAfterSave | src/providers/TasksProvider.tsx:38-47 | reading back a saved list gives that list; other users read what they read before |
| TasksProvider.SaveLoadedIsNoop | src/providers/TasksProvider.tsx:53-68 | saving the list just loaded for a stored user leaves the dictionary as it was |
| TasksProvider.SortDirection | src/providers/TasksProvider.tsx:133 | the direction defaults to descending |
| TasksProvider.TaskProvider.constructor | src/providers/TasksProvider.tsx:49-61 | after mounting, the signed-in user's stored list is on display and persisted; with nobody signed in the list is empty |
| TasksProvider.TaskProvider.UserChanged | src/providers/TasksProvider.tsx:53-68 | when the user changes, the new user's stored list is shown and saved back, or the list is emptied when nobody is signed in; the same user changes nothing |
| TasksProvider.TaskProvider.Commit | src/providers/TasksProvider.tsx:63-68 | with a user signed in, the new list is displayed and saved under that user; without one nothing changes; the user never changes |
| TasksProvider.TaskProvider.AddTask | src/providers/TasksProvider.tsx:70-84 | without a user nothing changes; otherwise the list becomes the add updater's result and is saved under the user |
| TasksProvider.TaskProvider.EditTask | src/providers/TasksProvider.tsx:86-97 | without a user nothing changes; otherwise the list becomes the edit updater's result and is saved |
| TasksProvider.TaskProvider.DeleteTask | src/providers/TasksProvider.tsx:99-106 | without a user nothing changes; otherwise the list becomes the delete updater's result and is saved |
| TasksProvider.TaskProvider.UpdateTaskStatus | src/providers/TasksProvider.tsx:108-117 | without a user nothing changes; otherwise the status updater's result is shown and saved |
| TasksProvider.TaskProvider.UpdateTaskPriority | src/providers/TasksProvider.tsx:119-131 | without a user nothing changes; otherwise the priority updater's result is shown and saved |
| TasksProvider.TaskProvider.SortTasks | src/providers/TasksProvider.tsx:133-148 | without a user nothing changes; otherwise the list is sorted by rank, descending by default, and saved |
| TasksProvider.AddThenDelete | src/providers/TasksProvider.tsx:70-106 | adding a task and deleting its id leaves the store as deleting alone does |
| TasksProvider.SwitchAndBack | src/providers/TasksProvider.tsx:53-68 | switching to another user and back shows the first user's list as it was |
| ManageTasks.FilterByPriority | src/components/modules/tasks/ManageTasks.tsx:183-186 | "All" gives the list itself; a priority gives only tasks of the list with that priority, and every such task |
| ManageTasks.SortedView | src/components/modules/tasks/ManageTasks.tsx:188-197 | a permutation of the filtered list, ordered by rank in the chosen direction |
| ManageTasks.PendingTasks | src/components/modules/tasks/ManageTasks.tsx:199-201 | only pending tasks, and every pending task of the sorted view |
| ManageTasks.CompletedTasks | src/components/modules/tasks/ManageTasks.tsx:202-204 | only completed tasks, and every completed task of the sorted view |
| ManageTasks.FilterByPriorityCorrect | src/components/modules/tasks/ManageTasks.tsx:183-186 | "All" is the identity; a priority keeps exactly its tasks with their multiplicities, in order |
| ManageTasks.SortedViewCorrect | src/components/modules/tasks/ManageTasks.tsx:192-197 | the view is a permutation of the filtered list; "Asc" gives non-decreasing rank, "Desc" non-increasing rank |
| ManageTasks.ColumnsPartition | src/components/modules/tasks/ManageTasks.tsx:199-204 | each column holds only its status; together they hold every sorted task exactly as often as the view does; both columns stay sorted |
| ManageTasks.SplitLength | src/components/modules/tasks/ManageTasks.tsx:199-204 | the two column lengths add up to the view's length |
| ManageTasks.Toggle | src/components/modules/tasks/ManageTasks.tsx:174 | the toggle always asks for the other status |
| ManageTasks.HandleStatusToggle | src/components/modules/tasks/ManageTasks.tsx:173-175 | same length; each task with the toggled task's id gets the other status; every other task is unchanged |
| ManageTasks.ToggleTwiceRestores | src/components/modules/tasks/ManageTasks.tsx:173-175 | toggling a task and then toggling it as now displayed restores the list |
| ManageTasks.EditFormIssues | src/components/modules/tasks/ManageTasks.tsx:75-80 | a title issue exactly when the title is empty; a priority issue exactly when the priority is not one of the three |
| ManageTasks.EditFormAccepts | src/components/modules/tasks/ManageTasks.tsx:75-80 | the form passes exactly when the title is not empty and the priority names one of the three |
| ManageTasks.SubmitEdit | src/components/modules/tasks/ManageTasks.tsx:125-148 | rejected exactly when the schema has issues; a valid form with no task selected does nothing; an edit targets the selected task's id |
| ManageTasks.SubmitEditDetectsChange | src/components/modules/tasks/ManageTasks.tsx:128-135 | an edit is sent exactly when merging its patch would change the task; the patch holds the trimmed title |
| ManageTasks.BlankTitleIsSent | src/components/modules/tasks/ManageTasks.tsx:128-135 | a title of one space passes the schema, and the edit sends an empty title |
| AuthProvider.Public | src/providers/AuthProvider.tsx:113-118 | the public user keeps id, username, email and creation time, and drops the password |
| AuthProvider.SignupCheck | src/providers/AuthProvider.tsx:83-98 | a taken username first, then a taken email, then a short password; accepted exactly when all three guards pass |
| AuthProvider.FirstMatch | src/providers/AuthProvider.tsx:128-133 | the first stored user whose username or email matches ignoring case and whose password is equal; none exactly when nobody matches |
| AuthProvider.SignupKeepsUnique | src/providers/AuthProvider.tsx:83-109 | an accepted signup keeps usernames and emails unique ignoring case |
| AuthProvider.SignupThenLogin | src/providers/AuthProvider.tsx:109-133 | after an accepted signup, login with the same username and password finds a user, and finds the new one unless an earlier user has that name as email and the same password |
| AuthProvider.LoginCanPickEarlierUser | src/providers/AuthProvider.tsx:128-133 | an earlier user whose email is the new username, with the same password, is found first |
| AuthProvider.AuthStore.constructor | src/providers/AuthProvider.tsx:72-73 | the store starts from the stored users and the stored current user |
| AuthProvider.AuthStore.Signup | src/providers/AuthProvider.tsx:79-123 | succeeds exactly when the guards accept; then one record is appended and its public part becomes the current user; a failure changes nothing |
| AuthProvider.AuthStore.Login | src/providers/AuthProvider.tsx:125-150 | the users are unchanged; succeeds exactly when some user matches; then the first match becomes current; a failure leaves the current user as it was |
| AuthProvider.AuthStore.Logout | src/providers/AuthProvider.tsx:152-155 | nobody is signed in afterwards; the users are unchanged |
| AuthProvider.SignupThenLoginOnStore | src/providers/AuthProvider.tsx:79-150 | on the store, a successful signup followed by a login with the same username and password succeeds |
| SignupForm.SignupIssues | src/components/modules/auth/SignupForm.tsx:28-36 | an issue for each failing length rule, the address check and the password match, each exactly when its rule fails |
| SignupForm.SignupFormAccepts | src/components/modules/auth/SignupForm.tsx:28-36 | the form passes exactly when the username has 3 or more characters, the address passes, the password has 6 or more, and the confirmation equals it |
| SignupForm.FieldIssues | src/components/modules/auth/SignupForm.tsx:28-36 | an issue is attached to a field exactly when the schema reports it with that field as its path; the issues keep the report order |
| SignupForm.FieldIssuesAttached | src/components/modules/auth/SignupForm.tsx:28-36 | the username and password fields have an issue attached exactly when their length rule fails; the confirmation field has the mismatch and its own length issue attached, each exactly when its rule fails |
| SignupForm.ShownIssue | src/components/modules/auth/SignupForm.tsx:44-46 | a field displays nothing exactly when no issue is attached to it; a displayed issue is one the schema reports for that field |
| SignupForm.ConfirmIssues | src/components/modules/auth/SignupForm.tsx:28-36 | the confirmation field's issues in report order: the length issue, when its rule fails, before the mismatch, when the values differ |
| SignupForm.ShownConfirmIssue | src/components/modules/auth/SignupForm.tsx:148-165 | the confirmation field displays the length message exactly when the confirmation is too short, the mismatch exactly when it is long enough and differs from the password, and nothing otherwise |
| SignupForm.OnSubmit | src/components/modules/auth/SignupForm.tsx:54-64 | signup is called exactly when the schema has no issues |
| SignupForm.SubmittedSignupPassesPasswordGuard | src/components/modules/auth/SignupForm.tsx:58 | the values are passed on unchanged; the store's password guard never fires; the store accepts exactly when neither the username nor the email is taken |
| Schema.JoinErrors | src/app/api/tasks/route.ts:115-120 | the joined message is empty exactly when there are no errors |
| TaskModel.TitleError | src/models/Task.ts:20-26 | no error exactly when the title is present and its trimmed length is between 1 and 200 |
| TaskModel.TaskErrors | src/models/Task.ts:12-37 | no errors exactly when the owner is present, the title is valid, and each status or priority present is in its enumeration |
| TaskModel.CreateTask | src/models/Task.ts:12-41 | creation fails exactly when there are errors, and reports them |
| TaskModel.CreateTaskCorrect | src/models/Task.ts:12-41 | a created document satisfies the schema, holds the owner, the trimmed title and the submitted or default status and priority (Pending, Low), and carries the creation time as both timestamps |
| TaskModel.TitleErrorCases | src/models/Task.ts:20-26 | an all-whitespace title is rejected as missing; one over 200 characters after trimming as too long |
| UserModel.LowerKeepsTrimmed | src/models/User.ts:25-26 | lowercasing keeps a trimmed string trimmed |
| UserModel.UsernameError | src/models/User.ts:13-20 | no error exactly when the trimmed username has 3 to 30 characters |
| UserModel.EmailError | src/models/User.ts:21-31 | no error exactly when the trimmed, lowercased email is not empty and matches the pattern |
| UserModel.PasswordError | src/models/User.ts:32-36 | no error exactly when the password has at least 6 characters |
| UserModel.UserErrors | src/models/User.ts:11-37 | no errors exactly when all three fields are valid |
| UserModel.BuildUser | src/models/User.ts:11-41 | building fails exactly when there are errors, and reports them |
| UserModel.BuildUserCorrect | src/models/User.ts:11-41 | a built user satisfies the schema and stores the trimmed username, the normalised email and the password as given |
| UserModel.InsertKeepsUnique | src/models/User.ts:16-24 | an insert the unique indexes admit keeps usernames and emails unique |
| UserModel.FindOne | src/app/api/auth/signup/route.ts:28-30 | the first user with the exact username or the given email; none exactly when nobody matches |
| TasksRoute.Format | src/app/api/tasks/route.ts:31-38 | the record carries the document's id, title, status, priority and both timestamps |
| TasksRoute.Owned | src/app/api/tasks/route.ts:27 | only documents of the store owned by the caller, and every such document |
| TasksRoute.NewestFirst | src/app/api/tasks/route.ts:28 | a permutation of its input with creation times non-increasing |
| TasksRoute.FormatAll | src/app/api/tasks/route.ts:31-38 | one record per document, in order, each without the owner |
| TasksRoute.Identify | src/app/api/tasks/route.ts:11-25 | no caller exactly when the header is absent or empty; a bad caller exactly when it is not an object id; otherwise the caller is the header |
| TasksRoute.ListingCorrect | src/app/api/tasks/route.ts:27-29 | the listing holds exactly the caller's tasks with their multiplicities, newest first |
| TasksRoute.ListingKeepsStoreOrderOnTies | src/app/api/tasks/route.ts:27-29 | tasks created at the same time are listed in store order |
| TasksRoute.CheckPost | src/app/api/tasks/route.ts:58-93 | 401 without a caller, 400 for a bad id, a missing or blank title, a bad priority, then a bad status, in that order; otherwise it hands on the trimmed title and the defaults Low and Pending |
| TasksRoute.CheckedInputErrors | src/app/api/tasks/route.ts:95-100 | input that passes the handler fails the schema only on a title over 200 characters |
| TasksRoute.CreateIsolation | src/app/api/tasks/route.ts:95-100 | storing a task leaves other users' listings unchanged and lists it last in its owner's store order |
| TasksRoute.TaskStore.constructor | src/app/api/tasks/route.ts:27 | the store holds the given documents |
| TasksRoute.TaskStore.Get | src/app/api/tasks/route.ts:7-48 | 401 or 400 from the header check; otherwise 200 and the caller's tasks, newest first and formatted |
| TasksRoute.TaskStore.Post | src/app/api/tasks/route.ts:51-122 | a rejection or a schema error stores nothing; otherwise one document is appended and answered with 201 |
| TasksRoute.PostCreatesValidTask | src/app/api/tasks/route.ts:72-100 | a created task is valid, belongs to the caller, holds the trimmed title and takes the defaults Low and Pending |
| TasksRoute.CreatedTaskIsListed | src/app/api/tasks/route.ts:27-38 | after creation the caller's listing shows the new task |
| SignupRoute.PublicOf | src/app/api/auth/signup/route.ts:52-61 | the answer keeps id, username, email and creation time, and no password |
| SignupRoute.CheckSignup | src/app/api/auth/signup/route.ts:12-42 | 400 for a missing field, then for a short password; 409 exactly when a user has the username or the lowercased email, named after what the found user shares; proceeds exactly when every field is present, the password is long enough and no user has the username or the lowercased email, and then hands on the lowercased email |
| SignupRoute.ConflictReason | src/app/api/auth/signup/route.ts:36-38 | an email conflict means the user found has another username and the lowercased email |
| SignupRoute.UserStore.constructor | src/app/api/auth/signup/route.ts:28 | the store starts from unique users |
| SignupRoute.UserStore.Signup | src/app/api/auth/signup/route.ts:5-78 | a refusal, a schema error (500) or a duplicate key (409) stores nothing; otherwise one user is appended, answered with 201, and uniqueness is kept |
| SignupRoute.SignupAnswer | src/app/api/auth/signup/route.ts:45-61 | the stored user is valid, answered with the trimmed username and the normalised email, and keeps the password |
| LoginRoute.Answer | src/app/api/auth/login/route.ts:28-54 | 200 with the password-free user exactly when a user was found and its password is equal; every other case is the same 401 |
| LoginRoute.Login | src/app/api/auth/login/route.ts:9-54 | 400 without a username or password; 200 only for a matching user with an equal password, answered without the password; every other failure is the same 401 |
| LoginRoute.LoginRejections | src/app/api/auth/login/route.ts:28-41 | an unknown name and a wrong password get the same 401; only the first user found is tried |
| LoginRoute.LoginShadowedAfterSignup | src/app/api/auth/login/route.ts:21-41 | when an earlier user X has the new username as email, only X and the new user match that name; whichever of the two the lookup returns, the other is refused with their own password; with the first match in store order, the new user's login gets 401 |
| LoginRoute.FindForLogin | src/app/api/auth/login/route.ts:21-26 | the corrected lookup: a user with the exact username when there is one, otherwise one with that email |
| LoginRoute.LoginFixed | src/app/api/auth/login/route.ts:13-54 | `LoginRoute.Login`'s guard order, uniform 401 and password-free 200, with the corrected lookup |
| LoginRoute.SignupThenLoginFixed | src/app/api/auth/login/route.ts:21-54 | with the corrected lookup, a user who has just signed up logs in with the same username and password |

## Left out

- Persistence: localStorage, JSON encoding and parsing, and the error handling around it are not modelled. The stores are in-memory `seq` and `map` fields.
- The React effect schedule: the save effect can run once with the old list under the new user before the load effect's list is rendered. `TaskProvider.UserChanged` models the net effect after both effects have run.
- The toast texts of the signup verdicts and the message texts of the two forms' schemas are not modelled; the issues themselves are.
- Rendering, dialogs, toasts, loading flags and form resets are not modelled. Neither are the login form, user menu, page and layout components.
- The task form schema file and the login form checks repeat the edit form's rules, and are not modelled again.
- `handleDelete` and `handleSortChange` only forward to the store or set a state variable, and are not modelled separately.
- Identifier and timestamp generation (`Date.now`, `Math.random`, `toISOString`, Mongo's `_id` and timestamps) are parameters instead.
- `ObjectId.isValid` and the e-mail pattern (the route's regular expression and zod's `.email()`) are function-valued parameters.
- Unicode case mapping: `Text.Lower` changes only ASCII letters.
- String lengths count code points. JavaScript counts UTF-16 code units, which differ for characters outside the Basic Multilingual Plane.
- Non-string JSON values in request bodies are not modelled; each field is a string or absent.
- An unparseable request body is not modelled. Neither is a database connection failure, nor the generic 500 answer apart from schema errors and duplicate keys. In the task route, the body is parsed before the header is checked, so an unparseable body gives 500 even without a caller.
- Object id casting: the owner is compared as the header string. Mongo's canonical form of an object id (lowercase hex) is not modelled.
- Mongoose query casting: Mongoose runs a path's `trim` and `lowercase` setters on query filter values too, so the source's lookups compare the trimmed username and the trimmed, lowercased email. The model's lookups (`UserModel.FindOne`, `LoginRoute.FindForLogin`) skip those setters and compare the values the handler passes. Consequently the model misses two source behaviours for an untrimmed username such as " alice". At login, " alice" finds the stored user "alice". At signup, the same name hits "alice" in the lookup, and since `existingUser.username === username` is false the answer is 409 "Email already exists".
- `findOne` without a sort returns the first match in store order. `sort({ createdAt: -1 })` keeps store order among equal creation times. Mongo promises neither.
- Mongoose reports the first failing validator of each path. The model lists the paths in schema order.
- Updates to `updatedAt` after creation belong to the `[id]` route. That route is not part of this model.
- A title that is empty after trimming fails the `required` validator first, so the title's minimum-length message is never produced.
- The client API wrapper (`src/lib/api.ts`) and the context and type declarations are not modelled; the datatypes follow the type declarations.
- "Sorting works on a copy" and "login never writes" hold by construction: `ManageTasks.SortedView` and `LoginRoute.Login` are functions of their inputs.
- The server's username uniqueness and lookups compare usernames exactly, as the route code does. Only the client compares ignoring case.
- UserModel.BuildUserCorrect: the email is stated as stored in normalised form, `Lower(Trim(e))`, as the schema's setters produce it. The route lowercases the email before the setters run, so `SignupRoute.SignupAnswer` states the stored email as that normal form of the lowercased input. That the two orders agree is not proved.
- LoginRoute.SignupThenLoginFixed: requires the submitted username to be already trimmed. The schema stores the name trimmed, and the model's lookup, unlike Mongoose's, does not trim the query value, so an untrimmed name would not find the stored user in the model.

## Findings

| source | as written | input that shows it | evidently intended | confidence | as-written member | corrected member |
|---|---|---|---|---|---|---|
| src/providers/TasksProvider.tsx:78 | the duplicate check compares ids with `===`, and the add form (src/components/modules/tasks/index.tsx:55-59) builds tasks without an id, so two absent ids count as a duplicate | a list holding one task without an id; adding a second task without an id leaves the list unchanged | only a task that carries an id is checked for duplicates, so every new task is added | not executed | TaskList.AddTaskDropsIdless | TaskList.AddTaskFixedCorrect |
| src/app/api/auth/login/route.ts:21-41 | one lookup matches the username or the email, and only the first user found has its password checked | store user X (username "xuser", email "a@b.co", password "pw1234"); signup with username "a@b.co", email "new@b.co", password "secret1" is answered 201; login "a@b.co" / "secret1" is answered 401 when `findOne` returns the first match in store order; if it returned the new user instead, X logging in with "a@b.co" / "pw1234" would be refused, so one of the two is refused when logging in with the shared name; each can still log in with their other identifier | a user with the exact username is preferred, so whoever has just signed up can log in | not executed | LoginRoute.LoginShadowedAfterSignup | LoginRoute.SignupThenLoginFixed |
