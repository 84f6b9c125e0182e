/** The read side of `TaskService`: owner-scoped lookup, the filtered task
    query, and the newest-first ordering every task list is given. */
module Queries {
  import opened Wrappers
  import opened Models

  /** A snapshot of the `tasks` table, keyed by primary key. */
  type Table = map<TaskId, Task>

  /** The lookup by `(id, owner)` together: another user's task and a missing
      key give the same answer. */
  function Lookup(tasks: Table, id: TaskId, user: UserId): (r: Option<Task>)
    ensures r.Some? ==> id in tasks && r.value == tasks[id] && r.value.owner == user
    ensures r.None? ==> id !in tasks || tasks[id].owner != user
  {
    if id in tasks && tasks[id].owner == user then Some(tasks[id]) else None
  }

  /** Looking up another user's task answers exactly as if the task did not
      exist, so the answer leaks nothing about it. */
  lemma LookupHidesOtherOwners(tasks: Table, id: TaskId, user: UserId)
    requires id in tasks && tasks[id].owner != user
    ensures Lookup(tasks, id, user) == Lookup(tasks - {id}, id, user) == None
  {
  }

  /** A filter narrows only when it is a non-empty string, as Python treats
      `None` and `""` alike in `if status_filter:`. */
  predicate FilterActive(f: Option<string>)
  {
    f.Some? && f.value != ""
  }

  /** Whether a task passes the status and priority filters: each active
      filter compares the stored key for equality. */
  predicate MatchesFilters(t: Task, statusFilter: Option<string>, priorityFilter: Option<string>)
  {
    && (FilterActive(statusFilter) ==> StatusKey(t.status) == statusFilter.value)
    && (FilterActive(priorityFilter) ==> PriorityKey(t.priority) == priorityFilter.value)
  }

  /** `get_user_tasks`: the user's tasks, narrowed by the optional status and
      priority filters. No other user's task is ever in the result. */
  function GetUserTasks(tasks: Table, user: UserId, statusFilter: Option<string>, priorityFilter: Option<string>): (r: set<Task>)
    ensures r <= tasks.Values
    ensures forall t :: t in r ==> t.owner == user
  {
    set t | t in tasks.Values && t.owner == user && MatchesFilters(t, statusFilter, priorityFilter)
  }

  /** Without filters the query returns exactly the user's tasks. */
  lemma UnfilteredIsOwnedTasks(tasks: Table, user: UserId, t: Task)
    ensures t in GetUserTasks(tasks, user, None, None) <==> t in tasks.Values && t.owner == user
  {
  }

  /** An empty filter string narrows nothing, the same as an absent filter. */
  lemma EmptyFilterIsNoFilter(tasks: Table, user: UserId, statusFilter: Option<string>, priorityFilter: Option<string>)
    ensures GetUserTasks(tasks, user, Some(""), priorityFilter) == GetUserTasks(tasks, user, None, priorityFilter)
    ensures GetUserTasks(tasks, user, statusFilter, Some("")) == GetUserTasks(tasks, user, statusFilter, None)
  {
  }

  /** A status filter keeps exactly the user's tasks with that status. */
  lemma StatusFilterExact(tasks: Table, user: UserId, s: Status, t: Task)
    ensures t in GetUserTasks(tasks, user, Some(StatusKey(s)), None)
        <==> t in tasks.Values && t.owner == user && t.status == s
  {
  }

  /** A priority filter keeps exactly the user's tasks with that priority. */
  lemma PriorityFilterExact(tasks: Table, user: UserId, p: Priority, t: Task)
    ensures t in GetUserTasks(tasks, user, None, Some(PriorityKey(p)))
        <==> t in tasks.Values && t.owner == user && t.priority == p
  {
  }

  /** The two filters combine by conjunction. */
  lemma FiltersConjoin(tasks: Table, user: UserId, statusFilter: Option<string>, priorityFilter: Option<string>)
    ensures GetUserTasks(tasks, user, statusFilter, priorityFilter)
         == GetUserTasks(tasks, user, statusFilter, None) * GetUserTasks(tasks, user, None, priorityFilter)
  {
  }

  /** A filter value outside the choices yields an empty result, not an error. */
  lemma UnknownFilterYieldsNothing(tasks: Table, user: UserId, statusFilter: Option<string>, priorityFilter: Option<string>)
    requires || (FilterActive(statusFilter) && statusFilter.value !in StatusKeys)
             || (FilterActive(priorityFilter) && priorityFilter.value !in PriorityKeys)
    ensures GetUserTasks(tasks, user, statusFilter, priorityFilter) == {}
  {
  }

  /** Every record is stored under its own primary key. */
  ghost predicate Keyed(tasks: Table)
  {
    forall id :: id in tasks ==> tasks[id].id == id
  }

  /** In a keyed table, a record whose key is free is not stored yet. */
  lemma FreshKeyFreshRecord(tasks: Table, t: Task)
    requires Keyed(tasks) && t.id !in tasks
    ensures t !in tasks.Values
  {
  }

  /** Inserting a record under a fresh key adds exactly that record. */
  lemma InsertValues(tasks: Table, t: Task)
    requires t.id !in tasks
    ensures tasks[t.id := t].Values == tasks.Values + {t}
  {
    var m := tasks[t.id := t];
    forall v | v in m.Values ensures v in tasks.Values + {t} {
      var k :| k in m && m[k] == v;
      if k != t.id { assert tasks[k] == v; }
    }
    forall v | v in tasks.Values ensures v in m.Values {
      var k :| k in tasks && tasks[k] == v;
      assert m[k] == v;
    }
    assert m[t.id] == t;
  }

  /** Overwriting a record under its own key swaps exactly that record. */
  lemma ReplaceValues(tasks: Table, t: Task)
    requires Keyed(tasks) && t.id in tasks
    ensures tasks[t.id := t].Values == tasks.Values - {tasks[t.id]} + {t}
  {
    var m := tasks[t.id := t];
    forall v | v in m.Values ensures v in tasks.Values - {tasks[t.id]} + {t} {
      var k :| k in m && m[k] == v;
      if k != t.id { assert tasks[k] == v && v.id != t.id; }
    }
    forall v | v in tasks.Values - {tasks[t.id]} ensures v in m.Values {
      var k :| k in tasks && tasks[k] == v;
      assert m[k] == v;
    }
    assert m[t.id] == t;
  }

  /** Adding another user's task changes nobody else's query result. */
  lemma OtherOwnersInsertInvisible(tasks: Table, t: Task, user: UserId, statusFilter: Option<string>, priorityFilter: Option<string>)
    requires t.id !in tasks && t.owner != user
    ensures GetUserTasks(tasks[t.id := t], user, statusFilter, priorityFilter)
         == GetUserTasks(tasks, user, statusFilter, priorityFilter)
  {
    InsertValues(tasks, t);
  }

  /** A task added for the user shows up in the user's unfiltered query, next
      to everything that was there before. */
  lemma OwnInsertVisible(tasks: Table, t: Task)
    requires t.id !in tasks
    ensures GetUserTasks(tasks[t.id := t], t.owner, None, None)
         == GetUserTasks(tasks, t.owner, None, None) + {t}
  {
    InsertValues(tasks, t);
  }

  /** The ordering of every task list: newer `created_at` first. */
  ghost predicate NewestFirstOrder(ts: seq<Task>)
  {
    forall i, j :: 0 <= i < j < |ts| ==> ts[i].createdAt >= ts[j].createdAt
  }

  /** No task of `ts` was created after `t`. */
  ghost predicate IsNewest(t: Task, ts: set<Task>)
  {
    forall u :: u in ts ==> u.createdAt <= t.createdAt
  }

  /** Every non-empty finite set of tasks has a newest member. */
  lemma {:induction false} NewestExists(ts: set<Task>)
    requires ts != {}
    ensures exists t :: t in ts && IsNewest(t, ts)
    decreases |ts|
  {
    var x :| x in ts;
    var rest := ts - {x};
    if rest != {} {
      NewestExists(rest);
      var y :| y in rest && IsNewest(y, rest);
      if x.createdAt <= y.createdAt {
        assert IsNewest(y, ts);
      } else {
        assert IsNewest(x, ts);
      }
    } else {
      assert ts == {x};
    }
  }

  /** A query result as the database delivers it under `ordering =
      ['-created_at']`: every task exactly once, newest first. Tasks created
      at the same instant come in an unspecified order. */
  ghost function NewestFirst(ts: set<Task>): (r: seq<Task>)
    ensures |r| == |ts|
    ensures forall t :: t in r <==> t in ts
    ensures NewestFirstOrder(r)
    decreases |ts|
  {
    if ts == {} then []
    else
      NewestExists(ts);
      var t :| t in ts && IsNewest(t, ts);
      [t] + NewestFirst(ts - {t})
  }

  /** The list the task list page shows: the filtered query, newest first. */
  ghost function TaskList(tasks: Table, user: UserId, statusFilter: Option<string>, priorityFilter: Option<string>): (r: seq<Task>)
    ensures NewestFirstOrder(r) && |r| == |GetUserTasks(tasks, user, statusFilter, priorityFilter)|
    ensures forall t :: t in r <==> t in GetUserTasks(tasks, user, statusFilter, priorityFilter)
  {
    NewestFirst(GetUserTasks(tasks, user, statusFilter, priorityFilter))
  }
}
