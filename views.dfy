/** The write side of `TaskService` and the views that change tasks: create,
    status update, form update, delete, the owner cascade, and the result of
    the asynchronous status endpoint. */
module Views {
  import opened Wrappers
  import opened Text
  import opened Models
  import opened Forms
  import opened Queries

  /** The failures the write operations report. */
  datatype ServiceError =
    | EmptyTitle             // ValueError("Task title cannot be empty")
    | TitleOverflow          // the title does not fit its column
    | InvalidStatus          // ValueError("Invalid status")
    | NotFound               // Http404 from the owner-scoped lookup
    | InvalidForm(reason: FormError)

  /** What the asynchronous status endpoint answers. A missing task escapes
      the view's `except` clause as a 404 page rather than a JSON reply. */
  datatype StatusResponse =
    | JsonSuccess(status: string)
    | JsonFailure(error: string)
    | NotFoundPage

  /** The table invariant: every record is stored under its own key, every key
      was handed out before `nextId`, and every title fits its column. */
  ghost predicate WellFormed(tasks: Table, nextId: TaskId)
  {
    && Keyed(tasks)
    && (forall id :: id in tasks ==> id < nextId)
    && (forall id :: id in tasks ==> |tasks[id].title| <= MaxTitleLength)
  }

  /** The table without the tasks of a removed user account. */
  function CascadeDelete(tasks: Table, user: UserId): (r: Table)
    ensures forall id :: id in r <==> id in tasks && tasks[id].owner != user
    ensures forall id :: id in r ==> r[id] == tasks[id]
  {
    map id | id in tasks && tasks[id].owner != user :: tasks[id]
  }

  /** After the cascade the removed user has no tasks left, and every other
      user's query answers as before. */
  lemma CascadeRemovesExactlyOwnTasks(tasks: Table, user: UserId, other: UserId, statusFilter: Option<string>, priorityFilter: Option<string>)
    requires other != user
    ensures GetUserTasks(CascadeDelete(tasks, user), user, statusFilter, priorityFilter) == {}
    ensures GetUserTasks(CascadeDelete(tasks, user), other, statusFilter, priorityFilter)
         == GetUserTasks(tasks, other, statusFilter, priorityFilter)
  {
  }

  /** The cascade keeps the table invariant. */
  lemma CascadeKeepsWellFormed(tasks: Table, nextId: TaskId, user: UserId)
    requires WellFormed(tasks, nextId)
    ensures WellFormed(CascadeDelete(tasks, user), nextId)
  {
  }

  /** The store behind `TaskService`: the `tasks` table and the next primary
      key the database will hand out. */
  class TaskStore {
    var tasks: Table
    var nextId: TaskId

    ghost predicate Valid()
      reads this
    {
      WellFormed(tasks, nextId)
    }

    /** An empty table whose first key will be 1. */
    constructor ()
      ensures Valid() && tasks == map[] && nextId == 1
    {
      tasks := map[];
      nextId := 1;
    }

    /** `create_task`: a blank title is rejected; otherwise one new task is
        stored under a fresh key, owned by `user`, with the stripped title,
        the given description, priority and due date, the default status, and
        both timestamps at `now`. A stripped title too wide for its column
        cannot be saved. Keys come from an auto-increment counter, so the new
        key is the counter's value and is never handed out again, even after
        the task is deleted. On failure nothing changes. */
    method CreateTask(user: UserId, title: string, description: string, priority: Priority, dueDate: Option<Time>, now: Time)
      returns (r: Result<Task, ServiceError>)
      requires Valid()
      modifies this
      ensures Valid()
      ensures Strip(title) == [] ==> r == Err(EmptyTitle)
      ensures Strip(title) != [] && |Strip(title)| > MaxTitleLength ==> r == Err(TitleOverflow)
      ensures r.Ok? <==> Strip(title) != [] && |Strip(title)| <= MaxTitleLength
      ensures r.Err? ==> tasks == old(tasks) && nextId == old(nextId)
      ensures r.Ok? ==>
        && r.value.id == old(nextId) && nextId == old(nextId) + 1
        && r.value.id !in old(tasks)
        && tasks == old(tasks)[r.value.id := r.value]
        && r.value == Task(r.value.id, user, Strip(title), description, DefaultStatus,
                           priority, dueDate, now, now)
    {
      var stripped := Strip(title);
      if stripped == [] {
        return Err(EmptyTitle);
      }
      if |stripped| > MaxTitleLength {
        return Err(TitleOverflow);
      }
      var task := Task(nextId, user, stripped, description, DefaultStatus, priority, dueDate, now, now);
      tasks := tasks[nextId := task];
      nextId := nextId + 1;
      r := Ok(task);
    }

    /** `task_create` on a POST: the bound form is validated first and an
        invalid one changes nothing; the cleaned data of a valid one is handed
        to `CreateTask`, which then always succeeds, because the cleaned title
        is already stripped, at least three characters long and fits its
        column. */
    method TaskCreate(user: UserId, data: TaskFormData, now: Time) returns (r: Result<Task, ServiceError>)
      requires Valid()
      modifies this
      ensures Valid()
      ensures r.Ok? <==> ValidateForm(data).Ok?
      ensures r.Err? ==> r == Err(InvalidForm(ValidateForm(data).error)) && tasks == old(tasks) && nextId == old(nextId)
      ensures r.Ok? ==>
        && r.value.id == old(nextId) && nextId == old(nextId) + 1
        && r.value.id !in old(tasks)
        && tasks == old(tasks)[r.value.id := r.value]
        && r.value == Task(r.value.id, user, Strip(data.title), Strip(data.description), DefaultStatus,
                           data.priority, data.dueDate, now, now)
    {
      var valid := ValidateForm(data);
      if valid.Err? {
        return Err(InvalidForm(valid.error));
      }
      StripIdempotent(data.title);
      r := CreateTask(user, valid.value.title, valid.value.description, data.priority, data.dueDate, now);
    }

    /** `update_task_status`: the owner-scoped lookup comes first, so a task
        that is missing or belongs to someone else is `NotFound` whatever the
        status; then a status outside the choices is `InvalidStatus`. On
        success only that task's status (and its `updated_at`) changes, to the
        requested value. On failure nothing changes. */
    method UpdateTaskStatus(taskId: TaskId, newStatus: Option<string>, user: UserId, now: Time)
      returns (r: Result<Task, ServiceError>)
      requires Valid()
      modifies this
      ensures Valid() && nextId == old(nextId)
      ensures Lookup(old(tasks), taskId, user).None? ==> r == Err(NotFound)
      ensures Lookup(old(tasks), taskId, user).Some? && (newStatus.None? || ParseStatus(newStatus.value).None?)
              ==> r == Err(InvalidStatus)
      ensures r.Ok? <==> Lookup(old(tasks), taskId, user).Some? && newStatus.Some? && ParseStatus(newStatus.value).Some?
      ensures r.Err? ==> tasks == old(tasks)
      ensures r.Ok? ==>
        && StatusKey(r.value.status) == newStatus.value
        && r.value == old(tasks)[taskId].(status := r.value.status, updatedAt := now)
        && tasks == old(tasks)[taskId := r.value]
    {
      var found := Lookup(tasks, taskId, user);
      if found.None? {
        return Err(NotFound);
      }
      if newStatus.None? {
        return Err(InvalidStatus);
      }
      var status := ParseStatus(newStatus.value);
      if status.None? {
        return Err(InvalidStatus);
      }
      var task := found.value.(status := status.value, updatedAt := now);
      tasks := tasks[taskId := task];
      r := Ok(task);
    }

    /** `task_update` on a POST: the owner-scoped lookup, then form validation;
        a valid form overwrites title, description, priority and due date and
        refreshes `updated_at`. Nothing else changes, and a failure changes
        nothing. */
    method UpdateTask(taskId: TaskId, user: UserId, data: TaskFormData, now: Time)
      returns (r: Result<Task, ServiceError>)
      requires Valid()
      modifies this
      ensures Valid() && nextId == old(nextId)
      ensures Lookup(old(tasks), taskId, user).None? ==> r == Err(NotFound)
      ensures Lookup(old(tasks), taskId, user).Some? && ValidateForm(data).Err?
              ==> r == Err(InvalidForm(ValidateForm(data).error))
      ensures r.Ok? <==> Lookup(old(tasks), taskId, user).Some? && ValidateForm(data).Ok?
      ensures r.Err? ==> tasks == old(tasks)
      ensures r.Ok? ==>
        && r.value == ApplyForm(old(tasks)[taskId], ValidateForm(data).value).(updatedAt := now)
        && r.value.title == Strip(data.title) && r.value.description == Strip(data.description)
        && tasks == old(tasks)[taskId := r.value]
    {
      var found := Lookup(tasks, taskId, user);
      if found.None? {
        return Err(NotFound);
      }
      var valid := ValidateForm(data);
      if valid.Err? {
        return Err(InvalidForm(valid.error));
      }
      var task := ApplyForm(found.value, valid.value).(updatedAt := now);
      tasks := tasks[taskId := task];
      r := Ok(task);
    }

    /** `task_delete` on a POST: the owner-scoped lookup, then removal of that
        one task, after which no lookup finds its key. The key lies below the
        counter, which `CreateTask` only ever raises, so no later create
        reissues it. A failure changes nothing. */
    method DeleteTask(taskId: TaskId, user: UserId) returns (r: Result<Task, ServiceError>)
      requires Valid()
      modifies this
      ensures Valid() && nextId == old(nextId)
      ensures r.Ok? <==> Lookup(old(tasks), taskId, user).Some?
      ensures r.Err? ==> r.error == NotFound && tasks == old(tasks)
      ensures r.Ok? ==> r.value == old(tasks)[taskId] && tasks == old(tasks) - {taskId} && taskId < nextId
      ensures forall u :: Lookup(tasks, taskId, u).Some? ==> r.Err?
    {
      var found := Lookup(tasks, taskId, user);
      if found.None? {
        return Err(NotFound);
      }
      tasks := tasks - {taskId};
      r := Ok(found.value);
    }

    /** Removing a user account removes all of that user's tasks and no
        other task. */
    method DeleteUserTasks(user: UserId)
      requires Valid()
      modifies this
      ensures Valid() && nextId == old(nextId)
      ensures tasks == CascadeDelete(old(tasks), user)
    {
      CascadeKeepsWellFormed(tasks, nextId, user);
      tasks := CascadeDelete(tasks, user);
    }

    /** `update_task_status_ajax`: anything but an XMLHttpRequest POST fails
        with "Invalid request" and changes nothing; otherwise the status update
        runs, and its outcome is answered as JSON carrying the new status, as
        JSON carrying the error message, or, for a missing task, as a 404. */
    method UpdateTaskStatusAjax(isPost: bool, isXhr: bool, taskId: TaskId, newStatus: Option<string>, user: UserId, now: Time)
      returns (resp: StatusResponse)
      requires Valid()
      modifies this
      ensures Valid() && nextId == old(nextId)
      ensures !(isPost && isXhr) ==> resp == JsonFailure("Invalid request")
      ensures isPost && isXhr && Lookup(old(tasks), taskId, user).None? ==> resp == NotFoundPage
      ensures resp.JsonSuccess? <==>
        && isPost && isXhr && Lookup(old(tasks), taskId, user).Some?
        && newStatus.Some? && ParseStatus(newStatus.value).Some?
      ensures resp.JsonSuccess? ==>
        && resp.status == newStatus.value
        && tasks == old(tasks)[taskId := old(tasks)[taskId].(status := ParseStatus(newStatus.value).value, updatedAt := now)]
      ensures isPost && isXhr && Lookup(old(tasks), taskId, user).Some?
              && !(newStatus.Some? && ParseStatus(newStatus.value).Some?)
              ==> resp == JsonFailure("Invalid status")
      ensures resp.NotFoundPage? ==> isPost && isXhr && Lookup(old(tasks), taskId, user).None?
      ensures !resp.JsonSuccess? ==> tasks == old(tasks)
    {
      if !(isPost && isXhr) {
        return JsonFailure("Invalid request");
      }
      var r := UpdateTaskStatus(taskId, newStatus, user, now);
      match r
      case Ok(task) => resp := JsonSuccess(StatusKey(task.status));
      case Err(NotFound) => resp := NotFoundPage;
      case Err(_) => resp := JsonFailure("Invalid status");
    }
  }
}
