/** `get_task_stats`: the counts shown beside a user's task list. */
module Statistics {
  import opened Wrappers
  import opened Models
  import opened Queries

  datatype TaskStats = TaskStats(total: nat, completed: nat, pending: int, overdue: nat)

  /** The user's tasks that are overdue at `now`. */
  function OverdueTasks(tasks: Table, user: UserId, now: Time): (r: set<Task>)
    ensures r <= GetUserTasks(tasks, user, None, None)
    ensures forall t :: t in r ==> IsOverdue(t, now)
  {
    set t | t in GetUserTasks(tasks, user, None, None) && IsOverdue(t, now)
  }

  lemma SubsetCard<T>(a: set<T>, b: set<T>)
    requires a <= b
    ensures |b| == |a| + |b - a|
  {
  }

  /** `get_task_stats`: every count is over the user's own tasks only;
      `pending` is what is not completed, and neither the completed nor the
      overdue count can exceed the total. */
  function GetTaskStats(tasks: Table, user: UserId, now: Time): (r: TaskStats)
    ensures r.completed <= r.total && r.overdue <= r.total
    ensures 0 <= r.pending == r.total - r.completed
  {
    var all := GetUserTasks(tasks, user, None, None);
    var done := GetUserTasks(tasks, user, Some(StatusKey(Completed)), None);
    var late := OverdueTasks(tasks, user, now);
    SubsetCard(done, all);
    SubsetCard(late, all);
    TaskStats(|all|, |done|, |all| - |done|, |late|)
  }

  /** The `pending` count folds in-progress tasks in: it counts every task of
      the user that is not completed. */
  lemma PendingCountsUnfinished(tasks: Table, user: UserId, now: Time)
    ensures GetTaskStats(tasks, user, now).pending
         == |set t | t in tasks.Values && t.owner == user && t.status != Completed|
  {
    var all := GetUserTasks(tasks, user, None, None);
    var done := GetUserTasks(tasks, user, Some(StatusKey(Completed)), None);
    var open := set t | t in tasks.Values && t.owner == user && t.status != Completed;
    forall t ensures t in done <==> t in all && t.status == Completed {
      StatusFilterExact(tasks, user, Completed, t);
    }
    assert open == all - done;
    SubsetCard(done, all);
  }

  /** Adding another user's task leaves the user's statistics alone. */
  lemma StatsIgnoreOtherOwners(tasks: Table, t: Task, user: UserId, now: Time)
    requires t.id !in tasks && t.owner != user
    ensures GetTaskStats(tasks[t.id := t], user, now) == GetTaskStats(tasks, user, now)
  {
    OtherOwnersInsertInvisible(tasks, t, user, None, None);
    OtherOwnersInsertInvisible(tasks, t, user, Some(StatusKey(Completed)), None);
  }

  /** Adding a task for the user counts it once more in the total. */
  lemma StatsAfterInsertTotal(tasks: Table, t: Task, now: Time)
    requires Keyed(tasks) && t.id !in tasks
    ensures GetTaskStats(tasks[t.id := t], t.owner, now).total == GetTaskStats(tasks, t.owner, now).total + 1
  {
    FreshKeyFreshRecord(tasks, t);
    OwnInsertVisible(tasks, t);
  }

  /** Adding a task for the user counts it once more in `completed` exactly
      when it is completed. */
  lemma StatsAfterInsertCompleted(tasks: Table, t: Task, now: Time)
    requires Keyed(tasks) && t.id !in tasks
    ensures GetTaskStats(tasks[t.id := t], t.owner, now).completed
         == GetTaskStats(tasks, t.owner, now).completed + (if t.status == Completed then 1 else 0)
  {
    var m, u := tasks[t.id := t], t.owner;
    FreshKeyFreshRecord(tasks, t);
    InsertValues(tasks, t);
    var done := GetUserTasks(tasks, u, Some(StatusKey(Completed)), None);
    var done' := GetUserTasks(m, u, Some(StatusKey(Completed)), None);
    forall x ensures x in done' <==> x in done || (x == t && t.status == Completed) {
      StatusFilterExact(tasks, u, Completed, x);
      StatusFilterExact(m, u, Completed, x);
    }
    if t.status == Completed {
      assert done' == done + {t};
    } else {
      assert done' == done;
    }
  }

  /** Adding a task for the user counts it once more in `overdue` exactly
      when it is overdue at `now`. */
  lemma StatsAfterInsertOverdue(tasks: Table, t: Task, now: Time)
    requires Keyed(tasks) && t.id !in tasks
    ensures GetTaskStats(tasks[t.id := t], t.owner, now).overdue
         == GetTaskStats(tasks, t.owner, now).overdue + (if IsOverdue(t, now) then 1 else 0)
  {
    var m, u := tasks[t.id := t], t.owner;
    FreshKeyFreshRecord(tasks, t);
    OwnInsertVisible(tasks, t);
    var late, late' := OverdueTasks(tasks, u, now), OverdueTasks(m, u, now);
    if IsOverdue(t, now) {
      assert late' == late + {t};
    } else {
      assert late' == late;
    }
  }

  /** Changing one task's status keeps every user's total: the same rows
      are still there. */
  lemma StatsAfterStatusChangeTotal(tasks: Table, id: TaskId, s: Status, stamp: Time, user: UserId, now: Time)
    requires Keyed(tasks) && id in tasks
    ensures var m := tasks[id := tasks[id].(status := s, updatedAt := stamp)];
      GetTaskStats(m, user, now).total == GetTaskStats(tasks, user, now).total
  {
    var t0 := tasks[id];
    var t1 := t0.(status := s, updatedAt := stamp);
    var m := tasks[id := t1];
    ReplaceValues(tasks, t1);
    var all, all' := GetUserTasks(tasks, user, None, None), GetUserTasks(m, user, None, None);
    assert t1 !in tasks.Values - {t0};
    if t0.owner == user {
      assert all' == all - {t0} + {t1};
    } else {
      assert all' == all;
    }
  }

  /** Changing one task's status keeps every user's overdue count, since
      being overdue does not depend on the status. */
  lemma StatsAfterStatusChangeOverdue(tasks: Table, id: TaskId, s: Status, stamp: Time, user: UserId, now: Time)
    requires Keyed(tasks) && id in tasks
    ensures var m := tasks[id := tasks[id].(status := s, updatedAt := stamp)];
      GetTaskStats(m, user, now).overdue == GetTaskStats(tasks, user, now).overdue
  {
    var t0 := tasks[id];
    var t1 := t0.(status := s, updatedAt := stamp);
    var m := tasks[id := t1];
    ReplaceValues(tasks, t1);
    var late, late' := OverdueTasks(tasks, user, now), OverdueTasks(m, user, now);
    assert t1 !in tasks.Values - {t0};
    assert IsOverdue(t1, now) == IsOverdue(t0, now);
    if t0.owner == user && IsOverdue(t0, now) {
      assert late' == late - {t0} + {t1};
    } else {
      assert late' == late;
    }
  }

  /** Three tasks of one user, one completed and two pending, one of the
      pending ones past its due date: 3 in all, 1 completed, 2 pending,
      1 overdue. */
  lemma ThreeTaskExample(user: UserId, now: Time)
    ensures var t1 := Task(1, user, "Write", "", Completed, High, None, 0, 0);
      var t2 := Task(2, user, "Read", "", Pending, Low, Some(now - 1), 1, 1);
      var t3 := Task(3, user, "Plan", "", Pending, Medium, None, 2, 2);
      GetTaskStats(map[1 := t1, 2 := t2, 3 := t3], user, now) == TaskStats(3, 1, 2, 1)
  {
    var t1 := Task(1, user, "Write", "", Completed, High, None, 0, 0);
    var t2 := Task(2, user, "Read", "", Pending, Low, Some(now - 1), 1, 1);
    var t3 := Task(3, user, "Plan", "", Pending, Medium, None, 2, 2);
    var m0: Table := map[];
    assert GetUserTasks(m0, user, None, None) == {};
    var m1 := m0[1 := t1];
    var m2 := m1[2 := t2];
    var m3 := m2[3 := t3];
    StatsAfterInsertTotal(m0, t1, now);
    StatsAfterInsertCompleted(m0, t1, now);
    StatsAfterInsertOverdue(m0, t1, now);
    StatsAfterInsertTotal(m1, t2, now);
    StatsAfterInsertCompleted(m1, t2, now);
    StatsAfterInsertOverdue(m1, t2, now);
    StatsAfterInsertTotal(m2, t3, now);
    StatsAfterInsertCompleted(m2, t3, now);
    StatsAfterInsertOverdue(m2, t3, now);
    assert m3 == map[1 := t1, 2 := t2, 3 := t3];
  }
}
