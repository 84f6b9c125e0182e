/** The `Task` record: its fields, the status and priority enumerations with
    their defaults, and the overdue predicate. */
module Models {
  import opened Wrappers

  /** A user account, compared only for identity. */
  type UserId = nat

  /** The system-assigned primary key of a task. */
  type TaskId = nat

  /** An instant; the model's clock is an ordered integer. */
  type Time = int

  /** Width of the `title` column. */
  const MaxTitleLength: nat := 200

  datatype Status = Pending | InProgress | Completed

  datatype Priority = Low | Medium | High

  const DefaultStatus: Status := Pending

  const DefaultPriority: Priority := Medium

  /** The stored keys of the status choices. */
  const StatusKeys: set<string> := {"pending", "in_progress", "completed"}

  /** The stored keys of the priority choices. */
  const PriorityKeys: set<string> := {"low", "medium", "high"}

  /** The string a status is stored as. */
  function StatusKey(s: Status): (k: string)
    ensures k in StatusKeys
  {
    match s
    case Pending => "pending"
    case InProgress => "in_progress"
    case Completed => "completed"
  }

  /** Membership of a string in the status choices, as the status it names. */
  function ParseStatus(k: string): (r: Option<Status>)
    ensures r.Some? <==> k in StatusKeys
    ensures r.Some? ==> StatusKey(r.value) == k
  {
    if k == "pending" then Some(Pending)
    else if k == "in_progress" then Some(InProgress)
    else if k == "completed" then Some(Completed)
    else None
  }

  /** The string a priority is stored as. */
  function PriorityKey(p: Priority): (k: string)
    ensures k in PriorityKeys
  {
    match p
    case Low => "low"
    case Medium => "medium"
    case High => "high"
  }

  /** Membership of a string in the priority choices, as the priority it names. */
  function ParsePriority(k: string): (r: Option<Priority>)
    ensures r.Some? <==> k in PriorityKeys
    ensures r.Some? ==> PriorityKey(r.value) == k
  {
    if k == "low" then Some(Low)
    else if k == "medium" then Some(Medium)
    else if k == "high" then Some(High)
    else None
  }

  /** Parsing a stored key gives the status back, so distinct statuses are
      stored as distinct strings. */
  lemma StatusKeyRoundTrip(s: Status)
    ensures ParseStatus(StatusKey(s)) == Some(s)
  {
  }

  /** Parsing a stored key gives the priority back. */
  lemma PriorityKeyRoundTrip(p: Priority)
    ensures ParsePriority(PriorityKey(p)) == Some(p)
  {
  }

  /** One row of the `tasks` table. Status and priority are closed
      enumerations, so every stored task holds one of the listed choices. */
  datatype Task = Task(
    id: TaskId,
    owner: UserId,
    title: string,
    description: string,
    status: Status,
    priority: Priority,
    dueDate: Option<Time>,
    createdAt: Time,
    updatedAt: Time)

  /** A task is overdue when it has a due date and `now` is strictly after it;
      the status plays no part, so a completed task can be overdue. */
  predicate IsOverdue(t: Task, now: Time): (overdue: bool)
    ensures overdue ==> t.dueDate.Some? && t.dueDate.value < now
  {
    match t.dueDate
    case None => false
    case Some(d) => now > d
  }

  /** Without a due date a task is never overdue, and with one it is overdue
      exactly from the instant after the due date on. */
  lemma OverdueIffPastDue(t: Task, now: Time)
    ensures t.dueDate.None? ==> !IsOverdue(t, now)
    ensures t.dueDate.Some? ==> (IsOverdue(t, now) <==> t.dueDate.value < now)
  {
  }

  /** Being overdue does not depend on the status. */
  lemma OverdueIgnoresStatus(t: Task, s: Status, now: Time)
    ensures IsOverdue(t.(status := s), now) == IsOverdue(t, now)
  {
  }

  /** Once overdue, a task stays overdue as time goes on. */
  lemma OverdueIsMonotone(t: Task, now: Time, later: Time)
    requires IsOverdue(t, now) && now <= later
    ensures IsOverdue(t, later)
  {
  }

  /** The names of the fields in which two records differ. */
  function ChangedFields(a: Task, b: Task): (f: set<string>)
    ensures f == {} <==> a == b
  {
    (if a.id != b.id then {"id"} else {})
    + (if a.owner != b.owner then {"user"} else {})
    + (if a.title != b.title then {"title"} else {})
    + (if a.description != b.description then {"description"} else {})
    + (if a.status != b.status then {"status"} else {})
    + (if a.priority != b.priority then {"priority"} else {})
    + (if a.dueDate != b.dueDate then {"due_date"} else {})
    + (if a.createdAt != b.createdAt then {"created_at"} else {})
    + (if a.updatedAt != b.updatedAt then {"updated_at"} else {})
  }
}
