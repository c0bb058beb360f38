/** The task record and the inputs of the server actions
    (`app/actions/task-actions.ts`). Dates are modelled as integers that keep their order; the
    store-assigned identifier as a natural number. */
module Tasks {
  import opened Options

  /** The fixed status enumeration `TaskStatus`. */
  datatype TaskStatus =
    | Prioritized
    | Critical
    | PriorityChange
    | Impacted
    | ExternalDev
    | InDevelopment
    | Planned
    | Blocked
    | Completed

  /** The text a status is persisted as, and the text the tooltip receives
      as the task's status. */
  function StatusText(s: TaskStatus): string {
    match s
    case Prioritized => "prioritized"
    case Critical => "critical"
    case PriorityChange => "priority-change"
    case Impacted => "impacted"
    case ExternalDev => "external-dev"
    case InDevelopment => "in-development"
    case Planned => "planned"
    case Blocked => "blocked"
    case Completed => "completed"
  }

  /** Reads a persisted status back; text outside the enumeration has none. */
  function ParseStatus(text: string): (r: Option<TaskStatus>)
    ensures r.Some? ==> StatusText(r.value) == text
  {
    if text == "prioritized" then Some(Prioritized)
    else if text == "critical" then Some(Critical)
    else if text == "priority-change" then Some(PriorityChange)
    else if text == "impacted" then Some(Impacted)
    else if text == "external-dev" then Some(ExternalDev)
    else if text == "in-development" then Some(InDevelopment)
    else if text == "planned" then Some(Planned)
    else if text == "blocked" then Some(Blocked)
    else if text == "completed" then Some(Completed)
    else None
  }

  /** Every status survives being persisted and read back. */
  lemma ParseStatusText(s: TaskStatus)
    ensures ParseStatus(StatusText(s)) == Some(s)
  {
  }

  /** Distinct statuses are persisted as distinct text. */
  lemma StatusTextInjective(a: TaskStatus, b: TaskStatus)
    ensures StatusText(a) == StatusText(b) ==> a == b
  {
  }

  /** A stored row. `details` and `responsible` are nullable columns. */
  datatype Task = Task(
    id: nat,
    name: string,
    startDate: int,
    endDate: int,
    status: TaskStatus,
    completed: bool,
    details: Option<string>,
    responsible: Option<string>)

  /** `TaskInput`: what `createTask` receives; the last three fields are
      optional. */
  datatype TaskInput = TaskInput(
    name: string,
    startDate: int,
    endDate: int,
    status: TaskStatus,
    completed: Option<bool>,
    details: Option<string>,
    responsible: Option<string>)

  /** `Partial<TaskInput>`: what `updateTask` receives; every field is
      optional and an absent one is left alone. */
  datatype TaskPatch = TaskPatch(
    name: Option<string>,
    startDate: Option<int>,
    endDate: Option<int>,
    status: Option<TaskStatus>,
    completed: Option<bool>,
    details: Option<string>,
    responsible: Option<string>)

  /** The patch that carries only `completed`. */
  function CompletedOnly(completed: bool): (p: TaskPatch)
    ensures p.completed == Some(completed)
  {
    TaskPatch(None, None, None, None, Some(completed), None, None)
  }

  /** The patch that carries only `status`. */
  function StatusOnly(status: TaskStatus): (p: TaskPatch)
    ensures p.status == Some(status)
  {
    TaskPatch(None, None, None, Some(status), None, None, None)
  }
}
