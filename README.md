# Task store: a verified model of the task tracker's service layer

The task tracker lets each signed-in user create, list, filter, edit, delete
and re-status personal tasks, and shows counts of them. Its logic lives in a
small service layer (`TaskService`) over one table of `Task` records, plus the
task form's title validator. This project models that layer in Dafny and
proves what it promises.

- `wrappers.dfy` (`Wrappers`): `Option` and `Result`.
- `text.dfy` (`Text`): Python's `str.strip()` over Python's whitespace table.
- `models.dfy` (`Models`): the `Task` record. Status and priority are closed
  enumerations, so every task holds one of the listed choices. The module
  also has the stored keys of each choice, the defaults (`pending`, `medium`),
  the 200-character title column and `is_overdue`.
- `forms.dfy` (`Forms`): `clean_title`, the form's field list, and what a
  form save changes.
- `queries.dfy` (`Queries`): the owner-scoped lookup, `get_user_tasks` with
  its filters, and the newest-first ordering of task lists.
- `statistics.dfy` (`Statistics`): `get_task_stats`.
- `views.dfy` (`Views`): the class `TaskStore`, which holds the table as a
  `map` from key to record plus the next key. Its methods are create, status
  update, form update, delete, the owner cascade and the asynchronous status
  endpoint.

The environment is abstracted:
- A user is an opaque number.
- Time is an integer passed in as `now`; nothing reads a clock.
- The database is the map held by `TaskStore`.

The table invariant `WellFormed` says three things:
- every record is stored under its own key;
- every key is below the next key;
- every title fits its 200-character column.

Every method of `TaskStore` keeps it.

## Model

| member | source | states |
|---|---|---|
| `Text.Strip` | tasks/views.py:34 | the stripped title is the slice of the input between its leading and trailing whitespace; everything cut off is whitespace and the result has no whitespace at either end |
| `Text.StripEmptyIffAllSpace` | tasks/views.py:29 | `not title.strip()` holds exactly when the title is all whitespace (both directions) |
| `Text.StripIdempotent` | tasks/views.py:34 | stripping a stripped title changes nothing |
| `Text.StripNoEdgeSpace` | tasks/views.py:34 | a title with no whitespace at either end is stored as given |
| `Models.StatusKey` | tasks/models.py:6-10 | every status is stored as one of the keys `pending`, `in_progress`, `completed` |
| `Models.PriorityKey` | tasks/models.py:12-16 | every priority is stored as one of the keys `low`, `medium`, `high` |
| `Models.IsOverdue` | tasks/models.py:46-49 | a task is overdue only if it has a due date and `now` is strictly after that date |
| `Models.ParseStatus` | tasks/models.py:6-10 | a string is accepted as a status exactly when it is one of the keys `pending`, `in_progress`, `completed`, and it then names the status stored under that key |
| `Models.StatusKeyRoundTrip` | tasks/models.py:6-10 | each status is stored as its own key and parses back to itself |
| `Models.ParsePriority` | tasks/models.py:12-16 | a string is accepted as a priority exactly when it is one of `low`, `medium`, `high` |
| `Models.PriorityKeyRoundTrip` | tasks/models.py:12-16 | each priority is stored as its own key and parses back to itself |
| `Models.OverdueIffPastDue` | tasks/models.py:46-49 | with no due date a task is never overdue; with one it is overdue exactly when `now` is strictly after it |
| `Models.OverdueIgnoresStatus` | tasks/models.py:47-48 | being overdue does not depend on the status, so a completed task can be overdue |
| `Models.OverdueIsMonotone` | tasks/models.py:47-48 | once overdue, a task stays overdue at every later instant |
| `Forms.CleanTitle` | tasks/forms.py:20-24 | rejects exactly the titles whose stripped length is below 3, and returns an accepted title unchanged, not stripped |
| `Forms.ValidateForm` | tasks/forms.py:11-24 | a bound form is valid exactly when its stripped title is 3 to 200 characters long and neither stripped text field holds a null character; the cleaned data carries the stripped title and description and is otherwise unchanged |
| `Forms.PaddedTitleFitsAfterStripping` | tasks/forms.py:11-24 | a title longer than 200 characters whose stripped form is 3 to 200 characters is accepted, and the cleaned title fits the column |
| `Forms.ApplyForm` | tasks/forms.py:13 | saving a form into a task sets title, description, priority and due date to the form's values and changes no field outside that list |
| `Forms.ApplyFormKeepsStatusAndOwner` | tasks/forms.py:13 | a form save never changes a task's status, owner or key |
| `Forms.FormTitlePassesService` | tasks/forms.py:22 | every title the form accepts is non-blank, so the service accepts it too |
| `Forms.ServiceLaxerThanForm` | tasks/views.py:29 | the converse fails: `"ab"` is non-blank for the service but too short for the form |
| `Forms.CleanTitleExamples` | tasks/forms.py:22-24 | `"  ab "` is rejected (2 characters once stripped) and `"abc"` is accepted as given |
| `Queries.Lookup` | tasks/views.py:45 | a task is found only by key and owner together |
| `Queries.LookupHidesOtherOwners` | tasks/views.py:139 | looking up another user's task gives the same answer as if the task did not exist |
| `Queries.GetUserTasks` | tasks/views.py:15-24 | the query result is drawn from the table and never holds another user's task |
| `Queries.UnfilteredIsOwnedTasks` | tasks/views.py:17 | without filters the result is exactly the user's tasks |
| `Queries.EmptyFilterIsNoFilter` | tasks/views.py:19-22 | an empty filter string narrows nothing, like an absent filter |
| `Queries.StatusFilterExact` | tasks/views.py:19-20 | a status filter keeps exactly the user's tasks with that status |
| `Queries.PriorityFilterExact` | tasks/views.py:21-22 | a priority filter keeps exactly the user's tasks with that priority |
| `Queries.FiltersConjoin` | tasks/views.py:19-22 | status and priority filters combine by intersection |
| `Queries.UnknownFilterYieldsNothing` | tasks/views.py:19-22 | a filter value outside the choices gives an empty result, not an error |
| `Queries.OtherOwnersInsertInvisible` | tasks/views.py:17 | adding one user's task changes no other user's query result |
| `Queries.OwnInsertVisible` | tasks/views.py:32-39 | a task added for a user appears in that user's unfiltered result beside the earlier ones |
| `Queries.NewestFirst` | tasks/models.py:41 | a list holds each task of the result exactly once, ordered by `created_at`, newest first |
| `Queries.TaskList` | tasks/views.py:115-123 | the page's list holds each task of the filtered query exactly once and nothing else, ordered by `created_at`, newest first |
| `Statistics.OverdueTasks` | tasks/views.py:61 | the overdue tasks counted are the user's own and are overdue at `now` |
| `Statistics.GetTaskStats` | tasks/views.py:56-68 | completed and overdue never exceed the total, and pending is total minus completed, so it is never negative |
| `Statistics.PendingCountsUnfinished` | tasks/views.py:66 | `pending` counts every task of the user that is not completed, in-progress ones included |
| `Statistics.StatsIgnoreOtherOwners` | tasks/views.py:58 | another user's new task leaves a user's statistics unchanged |
| `Statistics.StatsAfterInsertTotal` | tasks/views.py:59 | one new task of the user raises the total by one |
| `Statistics.StatsAfterInsertCompleted` | tasks/views.py:60 | one new task raises `completed` by one exactly when it is completed |
| `Statistics.StatsAfterInsertOverdue` | tasks/views.py:61 | one new task raises `overdue` by one exactly when it is overdue |
| `Statistics.StatsAfterStatusChangeTotal` | tasks/views.py:59 | a status change leaves every user's total unchanged |
| `Statistics.StatsAfterStatusChangeOverdue` | tasks/views.py:61 | a status change leaves every user's overdue count unchanged |
| `Statistics.ThreeTaskExample` | tasks/views.py:63-68 | three tasks, one completed and one of the two pending ones overdue, give total 3, completed 1, pending 2, overdue 1 |
| `Views.CascadeDelete` | tasks/models.py:33-37 | removing a user keeps exactly the tasks of other owners, each unchanged |
| `Views.CascadeRemovesExactlyOwnTasks` | tasks/models.py:35 | after the cascade the removed user has no tasks and every other user's query answers as before |
| `Views.CascadeKeepsWellFormed` | tasks/models.py:33-37 | the cascade keeps the table invariant |
| `Views.TaskStore.CreateTask` | tasks/views.py:27-40 | a blank title fails and changes nothing, and so does a stripped title too wide for its column. Otherwise, for a non-blank title that fits its column, exactly one task is added and no other task changes. Its key is the auto-increment counter's value, and the counter moves past it, so no key is ever issued twice. The new task has the given owner, the stripped title, the given description, priority and due date, status `pending`, and both timestamps at `now` |
| `Views.TaskStore.TaskCreate` | tasks/views.py:144-161 | an invalid form changes nothing; a valid one always creates the task under the counter's next key, with the stripped title and the stripped description |
| `Views.TaskStore.UpdateTaskStatus` | tasks/views.py:43-53 | the lookup failing gives not-found whatever the status. A status outside the choices then fails. Both failures leave the table unchanged. Success changes only that task's status (and `updated_at`), to the requested key |
| `Views.TaskStore.UpdateTask` | tasks/views.py:168-177 | not-found first, then form validation; success sets the four form fields of that one task to the cleaned values, with title and description stripped, refreshes `updated_at` and changes nothing else |
| `Views.TaskStore.DeleteTask` | tasks/views.py:184-191 | not-found for a missing or foreign task, with no change; otherwise exactly that task is removed, and its key lies below the auto-increment counter. Every store operation keeps or raises the counter and `CreateTask` issues only the counter's value, so no later lookup finds that key |
| `Views.TaskStore.DeleteUserTasks` | tasks/models.py:33-37 | removing a user removes all of that user's tasks and nothing else |
| `Views.TaskStore.UpdateTaskStatusAjax` | tasks/views.py:196-208 | a non-POST or non-XMLHttpRequest call fails with "Invalid request" and changes nothing. Success reports the requested status and makes the status-update change. A found task with a missing or invalid status reports "Invalid status". The 404 page happens exactly when the task is missing |

## Left out

- The authentication views `custom_login` and `register`, session login, the
  `next` redirect, and the `login_required` redirect. These are calls into the
  web framework's authentication library.
- Template rendering, flash messages and redirects. This covers the GET
  branches of `task_create`, `task_update` and `task_delete` and the
  `task_detail` page. `task_detail` only looks the task up, which is
  `Queries.Lookup`.
- The framework's object-relational mapper, SQL and transactions. The table
  is an in-memory map. Concurrent requests are not modelled: each operation
  is atomic in the model. In the program a status update saves the whole row it loaded
  (tasks/views.py:45-52), so it can undo a form edit saved in between.
- Real datetimes, time zones and the `%Y-%m-%dT%H:%M` parsing of the
  due-date input. Time is an integer.
- Display labels of the choices and `__str__`. They are presentation only.
- `Text.IsSpace`: it fixes Python's whitespace table (the 29 code points of
  the current Unicode database). It is not derived from a Unicode database.
- `Forms.ValidateForm`: it reports one error where the framework collects
  every failing field check. A blank title is reported as too short rather
  than as a missing field, and the priority choice is already a `Priority`
  in the form data.
- `Views.TaskStore.CreateTask`: it takes a `Priority`, whereas `create_task`
  stores whatever priority string it is given. Only the form at its one
  caller (tasks/views.py:155) limits the priority to the choices, and the
  claim that every stored task holds a listed priority depends on that.
- `Queries.UnknownFilterYieldsNothing`: the model's filters compare strings
  exactly. The program filters in the database, whose default collation
  compares case-insensitively, so a filter such as `Completed` there still
  finds the completed tasks.
- `Views.TaskStore.CreateTask`: the service itself does not check the
  200-character column. The model reports a stripped title that does not fit
  as `TitleOverflow`, because the database refuses to save it in strict mode.
  The message of that error is not modelled.
- The priority default (`Models.DefaultPriority`, `medium`) has no member
  stating it. It only matters as the form's initial choice, which is
  rendering. Every path that stores a task passes a priority.
- Keys are unbounded naturals. The 64-bit width of the auto-increment key is
  not modelled.
- For a missing task the status endpoint does not answer JSON:
  `get_object_or_404` raises `Http404`, which its
  `except (ValueError, Task.DoesNotExist)` does not catch. The model answers
  with a 404 page (`NotFoundPage`).
- Only the form demands 3 stripped characters; the service stores any
  non-blank stripped title (`Forms.ServiceLaxerThanForm`). So the table
  invariant only requires that a title fits its column.
