# Task manager engine

A Dafny model of the task-tracking engine inside the React task manager in
`src/App.jsx`: the task form's validation and draft building, the store
operations (add, update, delete, toggle complete, clear on logout), the
search-and-category query behind the visible list with its empty-list
message, the counters under the list, the periodic pending-task email check,
and the login screen's credential check.

The pure parts are functions with lemmas:

- `Text`: JavaScript `trim`, `toLowerCase` and `includes`, and the decimal
  rendering of a count.
- `Tasks`: the task record and the form draft.
- `TaskForm`: `validate` and `handleSubmit`.
- `TaskStore`: the list operations.
- `Query`: `filteredTasks`.
- `Stats`: the counters.
- `Notify`: one run of `checkPendingTasks`.
- `Login`: `handleLogin`'s checks.
- `Seqs`: JavaScript's `filter` and `map`, on which the store, the query and
  the counters are built.

The manager's state (`isLoggedIn`, `tasks`, `editingTask`, `emailLog`) is the
class `Manager.TaskManager`. Its methods assign the values those functions
compute, as the state setters do.

Values the source takes from the environment are parameters:

- the new task's id (`Date.now()`) and creation stamp (`new Date().toISOString()`);
- the log line's time stamp (`toLocaleString()`);
- whether the browser session already holds a user (`sessionStorage`).

Task ids are plain integers and are not assumed distinct, since two creations
within one millisecond share an id. Update, delete and toggle are stated for
every task that carries the id. Distinctness is proved to be preserved when
the caller supplies an unused id.

Facts about the code that the model keeps:

- An update of an id that no task carries is a silent no-op (src/App.jsx:369).
- A log entry is one string holding the time stamp and the count (src/App.jsx:334-336).
- Logout clears the tasks but neither the email log nor the task being edited (src/App.jsx:353-357).
- No store handler checks the session (src/App.jsx:359-383), so the model's
  store methods do not require `isLoggedIn`. Only the notification effect
  returns early when logged out (src/App.jsx:329).

## Model

| member | source | states |
|---|---|---|
| Seqs.Filter | src/App.jsx:374 | the result holds exactly the elements of the input that satisfy the predicate, and is no longer than the input |
| Seqs.Map | src/App.jsx:378-382 | the result has the input's length and holds `f` of the element at each position |
| Seqs.FilterIsSubsequence | src/App.jsx:386-400 | a filtered list is a subsequence of its input (order preserved) |
| Seqs.FilterConcat | src/App.jsx:386-400 | filtering a concatenation is the concatenation of the filtered parts |
| Seqs.FilterMultiplicity | src/App.jsx:374 | filtering keeps every copy of a passing element and drops every copy of the others |
| Seqs.FilterKeepsAll | src/App.jsx:374 | when every element passes, filtering returns the input unchanged |
| Text.LeadingWhitespace | src/App.jsx:100 | counts exactly the whitespace run at the start of the string |
| Text.TrailingWhitespace | src/App.jsx:100 | counts exactly the whitespace run at the end of the string |
| Text.Trim | src/App.jsx:100-101 | the result is a slice of the input with no whitespace at either end, only whitespace around it, and empty exactly when the input is all whitespace |
| Text.TrimOfTrimmed | src/App.jsx:115-116 | a string with no whitespace at either end trims to itself |
| Text.TrimIdempotent | src/App.jsx:115-116 | trimming twice is trimming once |
| Text.LowerChar | src/App.jsx:389 | ASCII capitals move to the lower-case letter 32 code points up; every other character is kept |
| Text.ToLower | src/App.jsx:389-390 | lower-cases every character in place, keeping the length |
| Text.Contains | src/App.jsx:389-390 | true exactly when the needle occurs at some position of the haystack |
| Text.OccursAtLowered | src/App.jsx:389-390 | an exact occurrence in the lower-cased strings is a case-insensitive occurrence in the originals, and conversely |
| Text.ContainsIgnoringCase | src/App.jsx:388-390 | `toLowerCase().includes(term.toLowerCase())` holds exactly when the term occurs somewhere ignoring letter case |
| Text.NatToString | src/App.jsx:335 | a count renders as a non-empty digit string with no leading zero: it starts with '0' only for zero, which renders as "0" |
| Text.ParseNatToString | src/App.jsx:335 | the rendered count reads back as the same number |
| Tasks.NewTask | src/App.jsx:360-364 | a new task carries the given id and creation stamp and exactly the submitted fields |
| Tasks.Merge | src/App.jsx:123 | the merged task keeps the edited task's id and creation stamp and takes every form field from the draft |
| Tasks.MergeOwnData | src/App.jsx:123 | merging a task's own fields over it gives the task back |
| TaskForm.Validate | src/App.jsx:98-104 | an error for title, description or due date exactly when that field is blank (title and description: all whitespace; due date: empty), each with its message |
| TaskForm.Submit | src/App.jsx:106-126 | rejects, with the validation errors, exactly when a field is blank; otherwise a new draft is trimmed, well formed and Pending, and an edit keeps the edited task's id, creation stamp and status and takes the trimmed form fields |
| TaskForm.EditForm | src/App.jsx:89-96 | the prefilled form carries the edited task's title, description, priority and due date, and a well-formed task's form passes validation |
| TaskForm.ResubmitUnchanged | src/App.jsx:89-126 | submitting the prefilled form of a well-formed task being edited gives back exactly that task |
| TaskStore.AddTask | src/App.jsx:359-366 | the old list, unchanged and in order, followed by one new task with the given id, stamp and fields |
| TaskStore.AddTaskIds | src/App.jsx:359-366 | adding puts exactly the new id into use |
| TaskStore.AddTaskKeepsUnique | src/App.jsx:359-366 | adding under an unused id keeps ids distinct |
| TaskStore.DeleteTask | src/App.jsx:373-375 | the result holds exactly the tasks whose id differs, each as many times as the old list holds it and none with the id, as a subsequence of the old list |
| TaskStore.DeleteAbsent | src/App.jsx:373-375 | deleting an id no task carries changes nothing |
| TaskStore.DeleteTaskIds | src/App.jsx:373-375 | deleting takes exactly that id out of use |
| TaskStore.FilterKeepsUnique | src/App.jsx:373-375 | filtering a store with distinct ids keeps them distinct |
| TaskStore.DeleteKeepsUnique | src/App.jsx:373-375 | deleting keeps distinct ids distinct |
| TaskStore.DeleteUniqueLength | src/App.jsx:373-375 | with distinct ids, deleting an id in use removes exactly one task |
| TaskStore.UpdateTask | src/App.jsx:368-371 | same length; every task with the updated id becomes the updated task, every other task stays in place |
| TaskStore.UpdateTaskIds | src/App.jsx:368-371 | updating never changes the set of ids in use |
| TaskStore.UpdateAbsent | src/App.jsx:368-371 | updating with an id not in the store changes nothing |
| TaskStore.UpdateKeepsUnique | src/App.jsx:368-371 | updating keeps distinct ids distinct |
| TaskStore.Flip | src/App.jsx:380 | the toggled status always differs from the old one (Completed becomes Pending, Pending becomes Completed) |
| TaskStore.ToggleComplete | src/App.jsx:377-383 | same length; tasks with the id flip between Pending and Completed, every other field and every other task is unchanged |
| TaskStore.ToggleTwice | src/App.jsx:377-383 | toggling the same id twice restores the list |
| TaskStore.ToggleAbsent | src/App.jsx:377-383 | toggling an id no task carries changes nothing |
| TaskStore.OperationsKeepWellFormed | src/App.jsx:359-383 | adding or updating with well-formed data, deleting and toggling all keep every stored task well formed |
| Query.MatchesSearch | src/App.jsx:388-390 | a task matches exactly when the term is empty or occurs, ignoring case, in its title or description |
| Query.MatchesCategory | src/App.jsx:393-398 | a task passes the All filter, the filter named after its own status and the one named after its own priority, and no other |
| Query.Visible | src/App.jsx:386-400 | the visible list holds exactly the stored tasks matching the search and the category, as a subsequence of the store |
| Query.VisibleUnfiltered | src/App.jsx:386-400 | with an empty term and the All filter the visible list is the whole store |
| Query.VisibleAppend | src/App.jsx:386-400 | the view of a store extended at the end is the old view followed by the matching new tasks |
| Query.EmptyMessage | src/App.jsx:478-481 | a message appears exactly when the view is empty; it is the no-tasks-yet one exactly when the store is empty, the no-match one exactly when the store is non-empty and the view empty, and the no-match one only under a search term or a category |
| Stats.PendingCount | src/App.jsx:511 | the Pending count is at most the total and positive exactly when some task is pending |
| Stats.StatusBalance | src/App.jsx:505-517 | the Completed and Pending filters split the store, and the high-priority pending filter keeps no more than the Pending one |
| Stats.Count | src/App.jsx:500-517 | Total is the store's length, Completed plus Pending equals Total, High Priority never exceeds Pending, and Pending is positive exactly when some task is pending |
| Stats.CountSingleton | src/App.jsx:500-517 | a one-task store counts one in Total, one in Completed or Pending by its status, and one in High Priority exactly when it is pending and high priority |
| Stats.CountAppend | src/App.jsx:500-517 | the counters of a concatenation add up |
| Stats.CountAfterAdd | src/App.jsx:500-517 | adding a Pending task raises Total and Pending by one, High Priority by one for a high-priority task, and leaves Completed unchanged |
| Stats.CountAfterToggle | src/App.jsx:500-517 | with distinct ids, toggling a stored task moves it between Completed and Pending and keeps Total |
| Stats.CountAfterToggleAny | src/App.jsx:500-517 | for any id, Pending loses the pending tasks carrying it and gains the completed ones, Completed the reverse, and Total is kept |
| Notify.Message | src/App.jsx:335 | the line is the bracketed time stamp, the fixed notification text, the count's digits and the fixed closing text, and the digits read back as the count, with no leading zero |
| Notify.MessageDistinguishesCounts | src/App.jsx:335 | two lines with the same time stamp are equal only when they announce the same count |
| Notify.Scan | src/App.jsx:331-338 | appends exactly one line, announcing the Pending count, when some task is pending, and nothing otherwise; earlier lines are unchanged |
| Login.CheckLogin | src/App.jsx:27-35 | logs in exactly when email and password are non-empty and the email contains '@'; otherwise the matching error, the empty-field one first |
| Manager.TaskManager.constructor | src/App.jsx:309-325 | starts with no tasks, no edit and an empty log, logged in exactly when a user is stored |
| Manager.TaskManager.Login | src/App.jsx:27-38 | the result is the credential check's; only a successful one sets logged-in, and nothing else changes |
| Manager.TaskManager.Logout | src/App.jsx:353-357 | logged out with an empty task list; the email log and the edit are kept |
| Manager.TaskManager.AddTask | src/App.jsx:359-366 | the task list becomes the store's add result; nothing else changes |
| Manager.TaskManager.UpdateTask | src/App.jsx:368-371 | the task list becomes the store's update result and the edit ends |
| Manager.TaskManager.DeleteTask | src/App.jsx:373-375 | the task list becomes the store's delete result; nothing else changes |
| Manager.TaskManager.ToggleComplete | src/App.jsx:377-383 | the task list becomes the store's toggle result; nothing else changes |
| Manager.TaskManager.StartEdit | src/App.jsx:488 | the picked task becomes the one being edited |
| Manager.TaskManager.CancelEdit | src/App.jsx:428 | no task is being edited afterwards |
| Manager.TaskManager.SubmitForm | src/App.jsx:106-126 | a rejected form changes nothing; an accepted one appends a Pending task or stores the edit and ends it; well-formed stores stay well formed |
| Manager.TaskManager.CheckPendingTasks | src/App.jsx:328-338 | while logged in the log becomes the scan's result; while logged out nothing changes |
| Manager.TaskManager.FilteredTasks | src/App.jsx:386-400 | the list on screen holds exactly the stored tasks matching the term and category, as a subsequence of the store |
| Manager.LogoutThenLogin | src/App.jsx:349-357 | after logout and a login attempt the task list is empty and the log survives |

## Left out

- Debouncing of the search term (`useDebounce`) is timer behaviour. The query takes the settled term as a parameter.
- The notification interval (`setInterval`/`clearInterval`) and when React re-runs effects are scheduling. Only one run of the check is modelled.
- `sessionStorage` reads and writes and `console.log` are browser I/O. The stored-session flag is a constructor parameter.
- `Date.now()`, `toISOString()` and `toLocaleString()` are clocks. Their values are parameters.
- Text.LowerChar: lower-cases ASCII letters only. JavaScript's full Unicode case mapping is not modelled.
- The form's own state is not modelled: clearing the fields after a submit, keeping the error map for display, and the prefill effect (modelled only as `EditForm`). This is display state of the form component.
- Rendering is not modelled: the delete-confirmation modal, the last-three view of the email log, CSS, and the icons.
- The fall-through for an unknown filter name (`src/App.jsx:399`) is left out. The filter is an enumeration of the six buttons, so that branch cannot be reached.
- The login screen's displayed error string is not modelled as state. It is returned as the login result.
