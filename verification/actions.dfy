/** The six server actions of `app/actions/task-actions.ts`, each one
    atomic step over the store that returns the `{success, data | error |
    message}` envelope. Every store failure is caught and reported as one
    fixed message per action; the cache revalidation and the error log are
    side channels with no effect on the reply (assuming neither throws). */
module TaskActions {
  import opened Options
  import opened Tasks
  import opened TaskStore

  /** The reply envelope. `Error` is the only shape with `success: false`. */
  datatype Reply =
    | TaskList(tasks: seq<Task>)
    | OneTask(task: Task)
    | Done
    | Message(message: string)
    | Error(error: string)
  {
    predicate Success() {
      !Error?
    }
  }

  /** The store after the action, and its reply. */
  datatype Outcome = Outcome(store: Store, reply: Reply)

  const GetTasksFailed: string := "Error al obtener tareas"
  const CreateTaskFailed: string := "Error al crear tarea"
  const UpdateTaskFailed: string := "Error al actualizar tarea"
  const DeleteTaskFailed: string := "Error al eliminar tarea"
  const ToggleTaskFailed: string := "Error al actualizar estado de tarea"
  const SeedFailed: string := "Error al inicializar la base de datos"
  const AlreadySeeded: string := "La base de datos ya contiene datos"
  const Seeded: string := "Base de datos inicializada con éxito"

  /** `completed || false`. */
  function CompletedOrFalse(completed: Option<bool>): (b: bool)
    ensures b <==> completed == Some(true)
  {
    completed.Some? && completed.value
  }

  /** `text || null`: an absent or empty string is stored as null. */
  function TextOrNull(text: Option<string>): (r: Option<string>)
    ensures r.None? <==> text.None? || text == Some("")
    ensures r.Some? ==> r == text
  {
    if text.Some? && text.value != "" then text else None
  }

  /** The row `createTask` hands to the store, with its defaults applied. */
  function CreateData(input: TaskInput): (row: NewRow)
    ensures row.name == input.name && row.status == input.status
    ensures row.startDate == input.startDate && row.endDate == input.endDate
    ensures row.completed == Some(input.completed == Some(true))
    ensures row.details.None? <==> input.details.None? || input.details == Some("")
    ensures row.details.Some? ==> row.details == input.details
    ensures row.responsible.None? <==> input.responsible.None? || input.responsible == Some("")
    ensures row.responsible.Some? ==> row.responsible == input.responsible
  {
    NewRow(input.name, input.startDate, input.endDate, input.status,
           Some(CompletedOrFalse(input.completed)),
           TextOrNull(input.details), TextOrNull(input.responsible))
  }

  /** `getTasks`: every task, ordered by start date. */
  function GetTasks(st: Store): (o: Outcome)
    requires Valid(st)
    ensures o.store == st
    ensures o.reply.Success() <==> st.up
    ensures !st.up ==> o.reply == Error(GetTasksFailed)
    ensures o.reply.Success() ==>
      && o.reply.TaskList?
      && SortedByStart(o.reply.tasks)
      && DistinctIds(o.reply.tasks)
      && RowsOf(o.reply.tasks, st.rows)
      && Covers(o.reply.tasks, st.rows)
  {
    match FindMany(st)
    case Ok(tasks) => Outcome(st, TaskList(tasks))
    case Err(_) => Outcome(st, Error(GetTasksFailed))
  }

  /** `createTask`: one new row with `completed` defaulting to false and
      empty or absent `details`/`responsible` stored as null. */
  function CreateTask(st: Store, input: TaskInput): (o: Outcome)
    requires Valid(st)
    ensures Valid(o.store) && o.store.up == st.up
    ensures o.reply.Success() <==> st.up
    ensures !st.up ==> o == Outcome(st, Error(CreateTaskFailed))
    ensures o.reply.Success() ==>
      && o.reply.OneTask?
      && var t := o.reply.task;
      && t.id !in st.rows
      && o.store.rows.Keys == st.rows.Keys + {t.id}
      && o.store.rows[t.id] == t
      && (forall id :: id in st.rows ==> o.store.rows[id] == st.rows[id])
      && t.name == input.name && t.status == input.status
      && t.startDate == input.startDate && t.endDate == input.endDate
      && (t.completed <==> input.completed == Some(true))
      && (t.details.None? <==> input.details.None? || input.details == Some(""))
      && (t.details.Some? ==> t.details == input.details)
      && (t.responsible.None? <==> input.responsible.None? || input.responsible == Some(""))
      && (t.responsible.Some? ==> t.responsible == input.responsible)
  {
    match Create(st, CreateData(input))
    case Ok((st', t)) => Outcome(st', OneTask(t))
    case Err(_) => Outcome(st, Error(CreateTaskFailed))
  }

  /** `updateTask`: patches the supplied fields of an existing row. */
  function UpdateTask(st: Store, id: nat, patch: TaskPatch): (o: Outcome)
    requires Valid(st)
    ensures Valid(o.store) && o.store.up == st.up
    ensures o.reply.Success() <==> st.up && id in st.rows
    ensures !o.reply.Success() ==> o == Outcome(st, Error(UpdateTaskFailed))
    ensures o.reply.Success() ==>
      && o.reply == OneTask(ApplyPatch(st.rows[id], patch))
      && o.store.rows == st.rows[id := o.reply.task]
  {
    match Update(st, id, patch)
    case Ok((st', t)) =>
      assert st'.rows == st.rows[id := t];
      Outcome(st', OneTask(t))
    case Err(_) => Outcome(st, Error(UpdateTaskFailed))
  }

  /** `deleteTask`: removes an existing row; the reply carries no data. */
  function DeleteTask(st: Store, id: nat): (o: Outcome)
    requires Valid(st)
    ensures Valid(o.store) && o.store.up == st.up
    ensures o.reply.Success() <==> st.up && id in st.rows
    ensures !o.reply.Success() ==> o == Outcome(st, Error(DeleteTaskFailed))
    ensures o.reply.Success() ==>
      && o.reply == Done
      && o.store.rows == st.rows - {id}
  {
    match Delete(st, id)
    case Ok((st', _)) =>
      assert st'.rows == st.rows - {id};
      Outcome(st', Done)
    case Err(_) => Outcome(st, Error(DeleteTaskFailed))
  }

  /** `toggleTaskCompletion`: writes `completed` and nothing else. */
  function ToggleTaskCompletion(st: Store, id: nat, completed: bool): (o: Outcome)
    requires Valid(st)
    ensures Valid(o.store) && o.store.up == st.up
    ensures o.reply.Success() <==> st.up && id in st.rows
    ensures !o.reply.Success() ==> o == Outcome(st, Error(ToggleTaskFailed))
    ensures o.reply.Success() ==>
      && o.reply == OneTask(st.rows[id].(completed := completed))
      && o.store.rows == st.rows[id := st.rows[id].(completed := completed)]
  {
    match Update(st, id, CompletedOnly(completed))
    case Ok((st', t)) =>
      assert st'.rows == st.rows[id := t];
      Outcome(st', OneTask(t))
    case Err(_) => Outcome(st, Error(ToggleTaskFailed))
  }

  /** The sample dataset. Dates are written as yyyymmdd numbers; the
      source's `new Date(2025, 0, 1)` counts months from zero. */
  function SampleTasks(): (batch: seq<NewRow>)
    ensures |batch| == 2
  {
    [ NewRow("ACH Xpress", 20250101, 20250415, ExternalDev, None,
             Some("Implementación del sistema de pagos ACH Xpress para transferencias bancarias rápidas"),
             Some("Equipo de Pagos")),
      NewRow("3DS Recargas", 20250115, 20250315, ExternalDev, Some(true),
             Some("Integración del protocolo 3D Secure para recargas con mayor seguridad"),
             Some("Equipo de Seguridad")) ]
  }

  /** `seedDatabase`: fills an empty table with the samples, leaves a
      non-empty one alone. */
  function SeedDatabase(st: Store): (o: Outcome)
    requires Valid(st)
    ensures Valid(o.store) && o.store.up == st.up
    ensures o.reply.Success() <==> st.up
    ensures !st.up ==> o == Outcome(st, Error(SeedFailed))
    ensures st.up && |st.rows| > 0 ==> o == Outcome(st, Message(AlreadySeeded))
    ensures st.up && |st.rows| == 0 ==>
      && o.reply == Message(Seeded)
      && o.store.next == st.next + 2
      && o.store.rows == map[st.next := Materialize(st.next, SampleTasks()[0]),
                             st.next + 1 := Materialize(st.next + 1, SampleTasks()[1])]
  {
    match Count(st)
    case Err(_) => Outcome(st, Error(SeedFailed))
    case Ok(count) =>
      if count > 0 then Outcome(st, Message(AlreadySeeded))
      else match CreateMany(st, SampleTasks())
        case Ok((st', _)) => Outcome(st', Message(Seeded))
        case Err(_) => Outcome(st, Error(SeedFailed))
  }

  /** The actions as one state machine. */
  datatype Action =
    | GetAll
    | CreateOne(input: TaskInput)
    | UpdateOne(id: nat, patch: TaskPatch)
    | DeleteOne(id: nat)
    | ToggleOne(id: nat, completed: bool)
    | Seed

  /** The fixed message each action reports on any failure. */
  function FailureMessage(a: Action): string {
    match a
    case GetAll => GetTasksFailed
    case CreateOne(_) => CreateTaskFailed
    case UpdateOne(_, _) => UpdateTaskFailed
    case DeleteOne(_) => DeleteTaskFailed
    case ToggleOne(_, _) => ToggleTaskFailed
    case Seed => SeedFailed
  }

  /** One step of the state machine. */
  function Step(st: Store, a: Action): (o: Outcome)
    requires Valid(st)
    ensures Valid(o.store) && o.store.up == st.up
  {
    match a
    case GetAll => GetTasks(st)
    case CreateOne(input) => CreateTask(st, input)
    case UpdateOne(id, patch) => UpdateTask(st, id, patch)
    case DeleteOne(id) => DeleteTask(st, id)
    case ToggleOne(id, completed) => ToggleTaskCompletion(st, id, completed)
    case Seed => SeedDatabase(st)
  }

  /** Every failure leaves the store untouched and reports the action's one
      fixed message; nothing else about the cause reaches the caller. */
  lemma FailureIsFixedMessage(st: Store, a: Action)
    requires Valid(st)
    ensures !Step(st, a).reply.Success() ==> Step(st, a) == Outcome(st, Error(FailureMessage(a)))
  {
  }

  /** A step fails exactly when the database is unreachable or, for the
      actions that address one task, that task does not exist. */
  lemma SuccessCondition(st: Store, a: Action)
    requires Valid(st)
    ensures Step(st, a).reply.Success() <==>
      st.up && (match a
                case UpdateOne(id, _) => id in st.rows
                case DeleteOne(id) => id in st.rows
                case ToggleOne(id, _) => id in st.rows
                case _ => true)
  {
  }

  /** `getTasks` only reads. */
  lemma GetTasksReadsOnly(st: Store)
    requires Valid(st)
    ensures Step(st, GetAll).store == st
  {
  }

  /** Updating, deleting or toggling a missing id fails with the action's
      message and changes nothing. */
  lemma MissingIdFails(st: Store, id: nat, patch: TaskPatch, completed: bool)
    requires Valid(st) && id !in st.rows
    ensures UpdateTask(st, id, patch) == Outcome(st, Error(UpdateTaskFailed))
    ensures DeleteTask(st, id) == Outcome(st, Error(DeleteTaskFailed))
    ensures ToggleTaskCompletion(st, id, completed) == Outcome(st, Error(ToggleTaskFailed))
  {
  }

  /** `createTask` with every optional field omitted stores `completed =
      false` and null `details`/`responsible`. */
  lemma CreateDefaults(st: Store, name: string, startDate: int, endDate: int, status: TaskStatus)
    requires Valid(st) && st.up
    ensures var o := CreateTask(st, TaskInput(name, startDate, endDate, status, None, None, None));
      o.reply.OneTask? && !o.reply.task.completed
      && o.reply.task.details.None? && o.reply.task.responsible.None?
  {
  }

  /** A successful `createTask` adds exactly one row. */
  lemma CreateAddsOneRow(st: Store, input: TaskInput)
    requires Valid(st) && st.up
    ensures |CreateTask(st, input).store.rows| == |st.rows| + 1
  {
  }

  /** `toggleTaskCompletion(id, c)` sets `completed` to `c` and leaves every
      other field and every other task as it was. */
  lemma ToggleChangesOnlyCompleted(st: Store, id: nat, completed: bool)
    requires Valid(st) && st.up && id in st.rows
    ensures var rows' := ToggleTaskCompletion(st, id, completed).store.rows;
      && rows'.Keys == st.rows.Keys
      && rows'[id].completed == completed
      && rows'[id].(completed := st.rows[id].completed) == st.rows[id]
      && forall k :: k in st.rows && k != id ==> rows'[k] == st.rows[k]
  {
  }

  /** Toggling on and then off restores a task that started uncompleted. */
  lemma ToggleRoundTrip(st: Store, id: nat)
    requires Valid(st) && st.up && id in st.rows
    requires !st.rows[id].completed
    ensures var mid := ToggleTaskCompletion(st, id, true).store;
      ToggleTaskCompletion(mid, id, false).store == st
  {
  }

  /** `updateTask(id, {status})` changes the status and nothing else. */
  lemma UpdateStatusOnly(st: Store, id: nat, status: TaskStatus)
    requires Valid(st) && st.up && id in st.rows
    ensures var o := UpdateTask(st, id, StatusOnly(status));
      o.reply == OneTask(st.rows[id].(status := status))
      && o.store.rows == st.rows[id := st.rows[id].(status := status)]
  {
  }

  /** After a successful `deleteTask(id)`, `getTasks` never lists `id` and
      lists every other task in start-date order. */
  lemma DeleteThenGet(st: Store, id: nat)
    requires Valid(st)
    requires DeleteTask(st, id).reply.Success()
    ensures var after := DeleteTask(st, id).store;
      var listed := GetTasks(after).reply;
      && listed.TaskList?
      && (forall i :: 0 <= i < |listed.tasks| ==> listed.tasks[i].id != id)
      && SortedByStart(listed.tasks)
      && (forall k :: k in st.rows && k != id ==> st.rows[k] in listed.tasks)
  {
  }

  /** A task created successfully is listed by the next `getTasks`. */
  lemma CreateThenGet(st: Store, input: TaskInput)
    requires Valid(st) && st.up
    ensures var o := CreateTask(st, input);
      var listed := GetTasks(o.store).reply;
      listed.TaskList? && o.reply.OneTask? && o.reply.task in listed.tasks
  {
  }

  /** Seeding a non-empty table is a successful no-op. */
  lemma SeedNonEmptyIsNoOp(st: Store)
    requires Valid(st) && st.up && |st.rows| > 0
    ensures SeedDatabase(st) == Outcome(st, Message(AlreadySeeded))
  {
  }

  /** Seeding is idempotent: a second call changes nothing. */
  lemma SeedIdempotent(st: Store)
    requires Valid(st)
    ensures var first := SeedDatabase(st).store;
      SeedDatabase(first).store == first
  {
  }

  /** Seeding an empty table twice leaves exactly the two samples. */
  lemma SeedTwiceFromEmpty(st: Store)
    requires Valid(st) && st.up && st.rows == map[]
    ensures |SeedDatabase(SeedDatabase(st).store).store.rows| == 2
  {
  }
}
